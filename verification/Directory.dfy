/**
 * The one-block directory of dirent.c and inode.c: records of different lengths packed
 * from the start of a block, zeros after the last. A record is the inode number (four
 * bytes, little endian), the file type, its own length (two bytes) and the name with its
 * NUL. Parsing undoes writing, and each operation on bytes does to the list of records
 * what its abstract counterpart does.
 */
module Directory {
  import opened Disk

  const HEADER: nat := 7
  const DENTRY_MIN: nat := 8

  datatype Entry = Entry(iNum: int, fileType: Byte, name: seq<Byte>)

  predicate Writable(e: Entry) {
    0 <= e.iNum < 0x1_0000_0000 && e.name != [] && 0 !in e.name && DENTRY_MIN + |e.name| <= BLOCK_SIZE
  }

  function Le32(n: int): (r: seq<Byte>)
    requires 0 <= n < 0x1_0000_0000
    ensures |r| == 4
  {
    [n % 256, n / 256 % 256, n / 256 / 256 % 256, n / 256 / 256 / 256]
  }

  function Length(e: Entry): nat {
    DENTRY_MIN + |e.name|
  }

  function Encode(e: Entry): (r: seq<Byte>)
    requires Writable(e)
    ensures |r| == Length(e)
  {
    Le32(e.iNum) + [e.fileType, Length(e) % 256, Length(e) / 256] + e.name + [0]
  }

  /** A record byte by byte. */
  lemma EncodedBytes(e: Entry)
    requires Writable(e)
    ensures
      var r, n := Encode(e), 8 + |e.name|;
      && |r| == n && r[7..n - 1] == e.name && r[n - 1] == 0
      && e.iNum == r[0] as int + 256 * (r[1] as int) + 65536 * (r[2] as int) + 16777216 * (r[3] as int)
      && r[4] == e.fileType && n == r[5] as int + 256 * (r[6] as int)
  {
    var r := Encode(e);
    assert r[..4] == Le32(e.iNum);
    assert forall i :: 0 <= i < 4 ==> r[i] == r[..4][i];
  }

  predicate AllWritable(es: seq<Entry>) {
    forall i :: 0 <= i < |es| ==> Writable(es[i])
  }

  function EncodeAll(es: seq<Entry>): seq<Byte>
    requires AllWritable(es)
  {
    if es == [] then [] else Encode(es[0]) + EncodeAll(es[1..])
  }

  function Zeros(n: nat): (r: seq<Byte>)
    ensures |r| == n && forall i :: 0 <= i < n ==> r[i] == 0
  {
    seq(n, _ => 0)
  }

  /** The block holds exactly these records. */
  predicate Packed(block: seq<Byte>, es: seq<Entry>) {
    && |block| == BLOCK_SIZE && AllWritable(es) && |EncodeAll(es)| <= BLOCK_SIZE
    && block == EncodeAll(es) + Zeros(BLOCK_SIZE - |EncodeAll(es)|)
  }

  // ---------------------------------------------------------------- reading a record

  function INumAt(block: seq<Byte>, pos: nat): int
    requires pos + HEADER <= |block|
  {
    block[pos] as int + 256 * (block[pos + 1] as int) + 65536 * (block[pos + 2] as int)
      + 16777216 * (block[pos + 3] as int)
  }

  function LengthAt(block: seq<Byte>, pos: nat): nat
    requires pos + HEADER <= |block|
  {
    block[pos + 5] as int + 256 * (block[pos + 6] as int)
  }

  /** A C string: the bytes up to the first NUL. */
  function CString(block: seq<Byte>, pos: nat): seq<Byte>
    decreases |block| - pos
  {
    if pos >= |block| || block[pos] == 0 then [] else [block[pos]] + CString(block, pos + 1)
  }

  function EntryAt(block: seq<Byte>, pos: nat): Entry
    requires pos + HEADER <= |block|
  {
    Entry(INumAt(block, pos), block[pos + 4], CString(block, pos + HEADER))
  }

  /** Is there another record at pos? The scans also stop when less than a header is left. */
  predicate More(block: seq<Byte>, pos: nat) {
    pos + HEADER <= |block| && LengthAt(block, pos) > 0
  }

  function Parse(block: seq<Byte>, pos: nat): seq<Entry>
    decreases |block| - pos
  {
    if !More(block, pos) then [] else [EntryAt(block, pos)] + Parse(block, pos + LengthAt(block, pos))
  }

  lemma {:induction false} CStringIs(block: seq<Byte>, pos: nat, name: seq<Byte>)
    requires pos + |name| < |block| && block[pos..pos + |name|] == name && block[pos + |name|] == 0 && 0 !in name
    ensures CString(block, pos) == name
    decreases |name|
  {
    if name != [] {
      assert block[pos] == name[0] && name[0] in name;
      assert block[pos + 1..pos + 1 + |name[1..]|] == name[1..];
      CStringIs(block, pos + 1, name[1..]);
    }
  }

  lemma Le32Decodes(n: int)
    requires 0 <= n < 0x1_0000_0000
    ensures
      var r := Le32(n);
      r[0] as int + 256 * (r[1] as int) + 65536 * (r[2] as int) + 16777216 * (r[3] as int) == n
  {
    var q1 := n / 256;
    var q2 := q1 / 256;
    assert n == 256 * q1 + n % 256 && q1 == 256 * q2 + q1 % 256 && q2 == 256 * (q2 / 256) + q2 % 256;
  }

  /** A record that was written at pos is read back: its name, */
  lemma NameIsRead(block: seq<Byte>, pos: nat, e: Entry)
    requires Writable(e) && pos + Length(e) <= |block| && block[pos..pos + Length(e)] == Encode(e)
    ensures CString(block, pos + HEADER) == e.name
  {
    var r, t := Encode(e), block[pos..pos + Length(e)];
    assert forall k :: 0 <= k < |t| ==> t[k] == block[pos + k];
    assert forall k :: 0 <= k < |e.name| ==> r[HEADER + k] == e.name[k];
    assert block[pos + HEADER..pos + HEADER + |e.name|] == e.name;
    assert r[HEADER + |e.name|] == 0;
    CStringIs(block, pos + HEADER, e.name);
  }

  /** and its numbers. */
  lemma NumbersAreRead(block: seq<Byte>, pos: nat, e: Entry)
    requires Writable(e) && pos + Length(e) <= |block| && block[pos..pos + Length(e)] == Encode(e)
    ensures INumAt(block, pos) == e.iNum && LengthAt(block, pos) == Length(e) && block[pos + 4] == e.fileType
  {
    var r, t := Encode(e), block[pos..pos + Length(e)];
    assert t[0] == block[pos] && t[1] == block[pos + 1] && t[2] == block[pos + 2] && t[3] == block[pos + 3];
    assert t[4] == block[pos + 4] && t[5] == block[pos + 5] && t[6] == block[pos + 6];
    assert r[..4] == Le32(e.iNum) && r[4] == e.fileType;
    assert r[5] == Length(e) % 256 && r[6] == Length(e) / 256;
    Le32Decodes(e.iNum);
    assert r[0] == r[..4][0] && r[1] == r[..4][1] && r[2] == r[..4][2] && r[3] == r[..4][3];
  }

  /** From pos on, the block holds these records and zeros. */
  predicate Tail(block: seq<Byte>, pos: nat, es: seq<Entry>) {
    && AllWritable(es) && pos + |EncodeAll(es)| <= |block|
    && block[pos..] == EncodeAll(es) + Zeros(|block| - pos - |EncodeAll(es)|)
  }

  lemma TailStep(block: seq<Byte>, pos: nat, es: seq<Entry>)
    requires Tail(block, pos, es) && es != []
    ensures More(block, pos) && LengthAt(block, pos) == Length(es[0]) && INumAt(block, pos) == es[0].iNum
    ensures Tail(block, pos + Length(es[0]), es[1..])
  {
    TailHead(block, pos, es);
    NumbersAreRead(block, pos, es[0]);
    var n, t := Length(es[0]), block[pos..];
    assert block[pos + n..] == t[n..];
  }

  lemma TailHead(block: seq<Byte>, pos: nat, es: seq<Entry>)
    requires Tail(block, pos, es) && es != []
    ensures pos + Length(es[0]) <= |block| && block[pos..pos + Length(es[0])] == Encode(es[0])
  {
    var n, t := Length(es[0]), block[pos..];
    assert block[pos..pos + n] == t[..n] == Encode(es[0]);
  }

  lemma TailEntry(block: seq<Byte>, pos: nat, es: seq<Entry>)
    requires Tail(block, pos, es) && es != []
    ensures pos + HEADER <= |block| && EntryAt(block, pos) == es[0]
  {
    TailHead(block, pos, es);
    NumbersAreRead(block, pos, es[0]);
    NameIsRead(block, pos, es[0]);
  }

  lemma TailEnds(block: seq<Byte>, pos: nat)
    requires Tail(block, pos, [])
    ensures !More(block, pos)
  {
    if pos + HEADER <= |block| {
      assert block[pos + 5] == block[pos..][5] && block[pos + 6] == block[pos..][6];
    }
  }

  lemma ParseUnfolds(block: seq<Byte>, pos: nat, e: Entry, rest: seq<Entry>)
    requires More(block, pos) && EntryAt(block, pos) == e && Parse(block, pos + LengthAt(block, pos)) == rest
    ensures Parse(block, pos) == [e] + rest
  {
  }

  lemma {:induction false} ParseTail(block: seq<Byte>, pos: nat, es: seq<Entry>)
    requires Tail(block, pos, es)
    ensures Parse(block, pos) == es
    decreases |es|
  {
    hide Tail, EncodeAll, AllWritable, Encode, EntryAt, INumAt, CString;
    if es == [] {
      TailEnds(block, pos);
    } else {
      var e, rest, next := es[0], es[1..], pos + Length(es[0]);
      TailEntry(block, pos, es);
      TailStep(block, pos, es);
      ParseTail(block, next, rest);
      ParseUnfolds(block, pos, e, rest);
      assert es == [e] + rest;
    }
  }

  lemma PackedIsTail(block: seq<Byte>, es: seq<Entry>)
    requires Packed(block, es)
    ensures Tail(block, 0, es)
  {
    assert block[0..] == block;
  }

  /** Parsing undoes writing, so a block holds one list of records only. */
  lemma ParsePacked(block: seq<Byte>, es: seq<Entry>)
    requires Packed(block, es)
    ensures Parse(block, 0) == es
  {
    PackedIsTail(block, es);
    ParseTail(block, 0, es);
  }

  lemma {:induction false} EncodeAllJoin(a: seq<Entry>, b: seq<Entry>)
    requires AllWritable(a) && AllWritable(b)
    ensures AllWritable(a + b) && EncodeAll(a + b) == EncodeAll(a) + EncodeAll(b)
  {
    var c := a + b;
    assert forall i :: 0 <= i < |c| ==> c[i] == if i < |a| then a[i] else b[i - |a|];
    if a == [] {
      assert c == b;
    } else {
      assert c[0] == a[0] && c[1..] == a[1..] + b;
      EncodeAllJoin(a[1..], b);
      assert EncodeAll(c) == Encode(c[0]) + EncodeAll(c[1..]);
    }
  }

  // ---------------------------------------------------------------- the operations on bytes

  /** Where the scan of createDEntry stops: the number of bytes in use. */
  function Used(block: seq<Byte>, pos: nat): nat
    decreases |block| - pos
  {
    if !More(block, pos) then pos else Used(block, pos + LengthAt(block, pos))
  }

  /** Bytes written over the block from pos on. */
  function Overwrite(block: seq<Byte>, pos: nat, r: seq<Byte>): seq<Byte>
    requires pos + |r| <= |block|
  {
    block[..pos] + r + block[pos + |r|..]
  }

  /** createDEntry in a directory of one block; false when the record does not fit behind the others. */
  function Create(block: seq<Byte>, e: Entry): (seq<Byte>, bool)
    requires Writable(e)
  {
    var pos := Used(block, 0);
    if pos + Length(e) < |block| then (Overwrite(block, pos, Encode(e)), true) else (block, false)
  }

  /** Where the record with this inode number starts, or |block| + 1. */
  function Search(block: seq<Byte>, pos: nat, iNum: int): nat
    decreases |block| - pos
  {
    if !More(block, pos) then |block| + 1
    else if INumAt(block, pos) == iNum then pos
    else Search(block, pos + LengthAt(block, pos), iNum)
  }

  /** deleteInodeEntry in a directory of one block: the bytes behind the record move up, zeros follow. */
  function Delete(block: seq<Byte>, iNum: int): (seq<Byte>, bool) {
    var pos := Search(block, 0, iNum);
    if pos > |block| || pos + HEADER > |block| || pos + LengthAt(block, pos) > |block| then (block, false)
    else
      var n := LengthAt(block, pos);
      (block[..pos] + block[pos + n..] + Zeros(n), true)
  }

  /** findInode in a directory of one block: the inode number of the first record with the name, or -1. */
  function Find(block: seq<Byte>, pos: nat, name: seq<Byte>): int
    decreases |block| - pos
  {
    if !More(block, pos) then -1
    else if CString(block, pos + HEADER) == name then INumAt(block, pos)
    else Find(block, pos + LengthAt(block, pos), name)
  }

  /** initializeDEntries: the names "." and "..". */
  function Initial(inodeNum: int, parentNum: int): (es: seq<Entry>)
    requires 0 <= inodeNum < 0x1_0000_0000 && 0 <= parentNum < 0x1_0000_0000
    ensures AllWritable(es)
  {
    [Entry(inodeNum, 100, [46]), Entry(parentNum, 100, [46, 46])]
  }

  // ---------------------------------------------------------------- the operations on lists

  function IndexOf(es: seq<Entry>, iNum: int): (k: nat)
    ensures k <= |es|
    ensures k < |es| ==> es[k].iNum == iNum
    ensures forall i :: 0 <= i < k ==> es[i].iNum != iNum
  {
    if es == [] || es[0].iNum == iNum then 0
    else
      var k := IndexOf(es[1..], iNum);
      assert forall i :: 1 <= i < 1 + k ==> es[i] == es[1..][i - 1];
      1 + k
  }

  function Lookup(es: seq<Entry>, name: seq<Byte>): int {
    if es == [] then -1 else if es[0].name == name then es[0].iNum else Lookup(es[1..], name)
  }

  lemma {:induction false} UsedTail(block: seq<Byte>, pos: nat, es: seq<Entry>)
    requires Tail(block, pos, es)
    ensures Used(block, pos) == pos + |EncodeAll(es)|
    decreases |es|
  {
    hide Tail, AllWritable, Encode, EntryAt, CString, Le32;
    if es == [] {
      TailEnds(block, pos);
    } else {
      TailStep(block, pos, es);
      UsedTail(block, pos + Length(es[0]), es[1..]);
    }
  }

  /** createDEntry appends the record, exactly when it leaves at least one byte behind it. */
  lemma CreateAppends(block: seq<Byte>, es: seq<Entry>, e: Entry)
    requires Packed(block, es) && Writable(e)
    ensures
      var (r, stored) := Create(block, e);
      && (stored <==> |EncodeAll(es)| + Length(e) < BLOCK_SIZE)
      && (stored ==> Packed(r, es + [e])) && (!stored ==> r == block)
  {
    PackedIsTail(block, es);
    UsedTail(block, 0, es);
    if |EncodeAll(es)| + Length(e) < BLOCK_SIZE {
      EncodeAllJoin(es, [e]);
      EncodeOne(e);
      AppendZeros(EncodeAll(es), Encode(e), BLOCK_SIZE - |EncodeAll(es)|);
    }
  }

  lemma EncodeOne(e: Entry)
    requires Writable(e)
    ensures AllWritable([e]) && EncodeAll([e]) == Encode(e)
  {
    assert [e][1..] == [];
  }

  lemma AppendZeros(a: seq<Byte>, r: seq<Byte>, n: nat)
    requires |r| <= n
    ensures Overwrite(a + Zeros(n), |a|, r) == a + r + Zeros(n - |r|)
  {
  }

  lemma {:induction false} FindTail(block: seq<Byte>, pos: nat, es: seq<Entry>, name: seq<Byte>)
    requires Tail(block, pos, es)
    ensures Find(block, pos, name) == Lookup(es, name)
    decreases |es|
  {
    hide Tail, AllWritable, Encode, EncodeAll, Le32;
    if es == [] {
      TailEnds(block, pos);
    } else {
      TailStep(block, pos, es);
      TailEntry(block, pos, es);
      FindTail(block, pos + Length(es[0]), es[1..], name);
    }
  }

  /** findInode agrees with lookup in the list. */
  lemma FindLooksUp(block: seq<Byte>, es: seq<Entry>, name: seq<Byte>)
    requires Packed(block, es)
    ensures Find(block, 0, name) == Lookup(es, name)
  {
    PackedIsTail(block, es);
    FindTail(block, 0, es, name);
  }

  /** Lookup gives the number of the first record with the name, and -1 exactly when there is none. */
  lemma {:induction false} LookupIsFirst(es: seq<Entry>, name: seq<Byte>, k: nat)
    requires AllWritable(es) && k <= |es| && (k < |es| ==> es[k].name == name)
    requires forall i :: 0 <= i < k ==> es[i].name != name
    ensures Lookup(es, name) == if k < |es| then es[k].iNum else -1
    ensures Lookup(es, name) == -1 <==> k == |es|
    decreases k
  {
    if 0 < k {
      assert forall i :: 0 <= i < k - 1 ==> es[1..][i] == es[i + 1];
      LookupIsFirst(es[1..], name, k - 1);
    }
  }

  /** A new directory: "." is the directory, ".." its parent, and nothing else is found. */
  lemma InitialNames(block: seq<Byte>, inodeNum: int, parentNum: int, name: seq<Byte>)
    requires 0 <= inodeNum < 0x1_0000_0000 && 0 <= parentNum < 0x1_0000_0000
    requires Packed(block, Initial(inodeNum, parentNum))
    ensures Find(block, 0, name) == if name == [46] then inodeNum else if name == [46, 46] then parentNum else -1
  {
    FindLooksUp(block, Initial(inodeNum, parentNum), name);
    var k := if name == [46] then 0 else if name == [46, 46] then 1 else 2;
    LookupIsFirst(Initial(inodeNum, parentNum), name, k);
  }

  lemma {:induction false} SearchTail(block: seq<Byte>, pos: nat, es: seq<Entry>, iNum: int)
    requires Tail(block, pos, es)
    ensures
      var k := IndexOf(es, iNum);
      Search(block, pos, iNum) == if k == |es| then |block| + 1 else pos + |EncodeAll(es[..k])|
    decreases |es|
  {
    hide Tail, AllWritable, Encode, EntryAt, CString, Le32;
    if es == [] {
      TailEnds(block, pos);
    } else {
      TailStep(block, pos, es);
      if es[0].iNum != iNum {
        SearchTail(block, pos + Length(es[0]), es[1..], iNum);
        var k := IndexOf(es, iNum);
        assert es[..k][1..] == es[1..][..k - 1];
      }
    }
  }

  lemma {:induction false} TailAt(block: seq<Byte>, pos: nat, es: seq<Entry>, k: nat)
    requires Tail(block, pos, es) && k <= |es|
    ensures Tail(block, pos + |EncodeAll(es[..k])|, es[k..])
    decreases k
  {
    if k == 0 {
      assert es[0..] == es && EncodeAll(es[..0]) == [];
    } else {
      TailStep(block, pos, es);
      TailAt(block, pos + Length(es[0]), es[1..], k - 1);
      assert es[..k][1..] == es[1..][..k - 1] && es[1..][k - 1..] == es[k..];
    }
  }

  /** deleteInodeEntry removes exactly the first record with the inode number, and the block stays packed. */
  lemma DeleteRemovesFirst(block: seq<Byte>, es: seq<Entry>, iNum: int)
    requires Packed(block, es)
    ensures
      var (r, found) := Delete(block, iNum);
      var k := IndexOf(es, iNum);
      && (found <==> k < |es|)
      && (found ==> Packed(r, es[..k] + es[k + 1..])) && (!found ==> r == block)
  {
    hide Tail, Encode, EncodeAll, EntryAt, CString, Search, Delete, LengthAt, Length;
    var k := IndexOf(es, iNum);
    PackedIsTail(block, es);
    SearchTail(block, 0, es, iNum);
    if k < |es| {
      CutAt(block, es, k);
      ShiftKeepsPacked(block, es, k);
    }
    DeleteIs(block, iNum);
  }

  lemma DeleteIs(block: seq<Byte>, iNum: int)
    ensures
      var p := Search(block, 0, iNum);
      && (p > |block| ==> Delete(block, iNum) == (block, false))
      && (More(block, p) && p + LengthAt(block, p) <= |block| ==>
            var n := LengthAt(block, p);
            Delete(block, iNum) == (block[..p] + block[p + n..] + Zeros(n), true))
  {
  }

  /** The block around record k. */
  lemma CutAt(block: seq<Byte>, es: seq<Entry>, k: nat)
    requires Packed(block, es) && k < |es|
    ensures
      var p := |EncodeAll(es[..k])|;
      && p + Length(es[k]) <= |block| && More(block, p) && LengthAt(block, p) == Length(es[k])
      && block[..p] == EncodeAll(es[..k]) && Tail(block, p + Length(es[k]), es[k + 1..])
  {
    var p := |EncodeAll(es[..k])|;
    PackedIsTail(block, es);
    TailAt(block, 0, es, k);
    assert es[k..][0] == es[k] && es[k..][1..] == es[k + 1..];
    TailStep(block, p, es[k..]);
    FrontOfBlock(block, es, k);
  }

  lemma FrontOfBlock(block: seq<Byte>, es: seq<Entry>, k: nat)
    requires Packed(block, es) && k <= |es|
    ensures var front := EncodeAll(es[..k]); |front| <= |block| && block[..|front|] == front
  {
    EncodeAllJoin(es[..k], es[k..]);
    assert es == es[..k] + es[k..];
  }

  lemma ShiftKeepsPacked(block: seq<Byte>, es: seq<Entry>, k: nat)
    requires |block| == BLOCK_SIZE && AllWritable(es) && k < |es|
    requires var p := |EncodeAll(es[..k])|; p <= |block| && block[..p] == EncodeAll(es[..k])
    requires Tail(block, |EncodeAll(es[..k])| + Length(es[k]), es[k + 1..])
    ensures
      var p, n := |EncodeAll(es[..k])|, Length(es[k]);
      Packed(block[..p] + block[p + n..] + Zeros(n), es[..k] + es[k + 1..])
  {
    var front, back, n := EncodeAll(es[..k]), EncodeAll(es[k + 1..]), Length(es[k]);
    EncodeAllJoin(es[..k], es[k + 1..]);
    var m := BLOCK_SIZE - |front| - n - |back|;
    assert Zeros(m) + Zeros(n) == Zeros(m + n);
    assert front + (back + Zeros(m)) + Zeros(n) == (front + back) + (Zeros(m) + Zeros(n));
  }

  // ---------------------------------------------------------------- histories

  datatype Op = CreateOp(e: Entry) | DeleteOp(iNum: int)

  predicate OpOk(op: Op) {
    op.CreateOp? ==> Writable(op.e)
  }

  function OnBytes(block: seq<Byte>, op: Op): seq<Byte>
    requires OpOk(op)
  {
    match op
    case CreateOp(e) => Create(block, e).0
    case DeleteOp(iNum) => Delete(block, iNum).0
  }

  /** The same operation on the list: append while a byte is left over, remove the first match. */
  function OnList(es: seq<Entry>, op: Op): seq<Entry>
    requires AllWritable(es) && OpOk(op)
  {
    match op
    case CreateOp(e) => if |EncodeAll(es)| + Length(e) < BLOCK_SIZE then es + [e] else es
    case DeleteOp(iNum) => var k := IndexOf(es, iNum); if k < |es| then es[..k] + es[k + 1..] else es
  }

  lemma OperationAgrees(block: seq<Byte>, es: seq<Entry>, op: Op)
    requires Packed(block, es) && OpOk(op)
    ensures Packed(OnBytes(block, op), OnList(es, op))
  {
    match op
    case CreateOp(e) => CreateAppends(block, es, e);
    case DeleteOp(iNum) => DeleteRemovesFirst(block, es, iNum);
  }

  function BytesAfter(block: seq<Byte>, ops: seq<Op>): seq<Byte>
    requires forall i :: 0 <= i < |ops| ==> OpOk(ops[i])
    decreases |ops|
  {
    if ops == [] then block else BytesAfter(OnBytes(block, ops[0]), ops[1..])
  }

  function ListAfter(es: seq<Entry>, ops: seq<Op>): seq<Entry>
    requires AllWritable(es) && forall i :: 0 <= i < |ops| ==> OpOk(ops[i])
    decreases |ops|
  {
    if ops == [] then es else ListAfter(OnList(es, ops[0]), ops[1..])
  }

  /** Over any sequence of operations the block is the packed form of the list, and findInode sees that list. */
  lemma {:induction false} HistoryAgrees(block: seq<Byte>, es: seq<Entry>, ops: seq<Op>, name: seq<Byte>)
    requires Packed(block, es) && forall i :: 0 <= i < |ops| ==> OpOk(ops[i])
    ensures Packed(BytesAfter(block, ops), ListAfter(es, ops))
    ensures Find(BytesAfter(block, ops), 0, name) == Lookup(ListAfter(es, ops), name)
    decreases |ops|
  {
    if ops == [] {
      FindLooksUp(block, es, name);
    } else {
      OperationAgrees(block, es, ops[0]);
      HistoryAgrees(OnBytes(block, ops[0]), OnList(es, ops[0]), ops[1..], name);
    }
  }

  /** Deleting a record just created restores the block, byte for byte. */
  lemma DeleteUndoesCreate(block: seq<Byte>, es: seq<Entry>, e: Entry)
    requires Packed(block, es) && Writable(e) && |EncodeAll(es)| + Length(e) < BLOCK_SIZE
    requires forall i :: 0 <= i < |es| ==> es[i].iNum != e.iNum
    ensures Delete(Create(block, e).0, e.iNum) == (block, true)
  {
    hide Tail, Encode, EntryAt, CString, Search, Used, EncodeAll;
    CreateAppends(block, es, e);
    var more := es + [e];
    DeleteRemovesFirst(Create(block, e).0, more, e.iNum);
    LastIsFound(es, e);
    assert more[..|es|] + more[|es| + 1..] == es;
  }

  lemma LastIsFound(es: seq<Entry>, e: Entry)
    requires forall i :: 0 <= i < |es| ==> es[i].iNum != e.iNum
    ensures IndexOf(es + [e], e.iNum) == |es|
  {
    var more := es + [e];
    assert forall i :: 0 <= i < |es| ==> more[i] == es[i];
    assert more[|es|] == e;
  }

  lemma OverwriteJoin(block: seq<Byte>, pos: nat, a: seq<Byte>, b: seq<Byte>)
    requires pos + |a| + |b| <= |block|
    ensures Overwrite(Overwrite(block, pos, a), pos + |a|, b) == Overwrite(block, pos, a + b)
  {
  }
}
