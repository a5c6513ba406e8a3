/**
 * The headers of the block list as they lie in a thread's memory: size, is_free, prev and
 * next in 24 bytes, least significant byte first. `mem` is the memory of one thread from its
 * HEAD on; pointers are kept relative to HEAD, so that 0 is NULL.
 */
module Headers {
  import opened PageTable
  import opened BlockList

  const WORD: int := 0x1_0000_0000

  /** Offsets of the fields of a header. */
  const SIZE: int := 0
  const IS_FREE: int := 4
  const PREV: int := 8
  const NEXT: int := 16

  function Value(bytes: seq<int>): int {
    if bytes == [] then 0 else bytes[0] + 256 * Value(bytes[1..])
  }

  function Digits(v: int, n: nat): (r: seq<int>)
    ensures |r| == n
    decreases n
  {
    if n == 0 then [] else [v % 256] + Digits(v / 256, n - 1)
  }

  function Power(n: nat): (r: int)
    ensures r > 0
  {
    if n == 0 then 1 else 256 * Power(n - 1)
  }

  /** What is stored is what is read. */
  lemma {:induction false} ValueOfDigits(v: int, n: nat)
    requires 0 <= v < Power(n)
    ensures Value(Digits(v, n)) == v
  {
    if n > 0 {
      ValueOfDigits(v / 256, n - 1);
      assert Digits(v, n)[1..] == Digits(v / 256, n - 1);
    }
  }

  lemma WordFits(v: int)
    requires 0 <= v < WORD
    ensures Value(Digits(v, 4)) == v && Value(Digits(v, 8)) == v
  {
    assert Power(4) == WORD;
    assert Power(8) == WORD * WORD;
    ValueOfDigits(v, 4);
    ValueOfDigits(v, 8);
  }

  /** The n bytes at address a. */
  function At(mem: seq<int>, a: int, n: nat): (r: seq<int>)
    requires 0 <= a && a + n <= |mem|
    ensures |r| == n
  {
    mem[a..a + n]
  }

  function Put(mem: seq<int>, a: int, bytes: seq<int>): (r: seq<int>)
    requires 0 <= a && a + |bytes| <= |mem|
    ensures |r| == |mem|
  {
    mem[..a] + bytes + mem[a + |bytes|..]
  }

  lemma PutThenAt(mem: seq<int>, a: int, bytes: seq<int>)
    requires 0 <= a && a + |bytes| <= |mem|
    ensures At(Put(mem, a, bytes), a, |bytes|) == bytes
  {
  }

  lemma PutElsewhere(mem: seq<int>, a: int, bytes: seq<int>, c: int, n: nat)
    requires 0 <= a && a + |bytes| <= |mem| && 0 <= c && c + n <= |mem| && (c + n <= a || a + |bytes| <= c)
    ensures At(Put(mem, a, bytes), c, n) == At(mem, c, n)
  {
  }

  /** The fields that make up the list. */
  datatype Fields = Fields(size: int, free: int, next: int)

  function FieldsAt(mem: seq<int>, a: int): Fields
    requires 0 <= a && a + META <= |mem|
  {
    Fields(Value(At(mem, a + SIZE, 4)), Value(At(mem, a + IS_FREE, 4)), Value(At(mem, a + NEXT, 8)))
  }

  function SetSize(mem: seq<int>, a: int, v: int): (r: seq<int>)
    requires 0 <= a && a + META <= |mem|
    ensures |r| == |mem|
  {
    Put(mem, a + SIZE, Digits(v, 4))
  }

  function SetFree(mem: seq<int>, a: int, v: int): (r: seq<int>)
    requires 0 <= a && a + META <= |mem|
    ensures |r| == |mem|
  {
    Put(mem, a + IS_FREE, Digits(v, 4))
  }

  function SetNext(mem: seq<int>, a: int, v: int): (r: seq<int>)
    requires 0 <= a && a + META <= |mem|
    ensures |r| == |mem|
  {
    Put(mem, a + NEXT, Digits(v, 8))
  }

  function SetPrev(mem: seq<int>, a: int, v: int): (r: seq<int>)
    requires 0 <= a && a + META <= |mem|
    ensures |r| == |mem|
  {
    Put(mem, a + PREV, Digits(v, 8))
  }

  lemma SetSizeFields(mem: seq<int>, a: int, v: int)
    requires 0 <= a && a + META <= |mem| && 0 <= v < WORD
    ensures FieldsAt(SetSize(mem, a, v), a) == FieldsAt(mem, a).(size := v)
  {
    WordFits(v);
    PutThenAt(mem, a + SIZE, Digits(v, 4));
    PutElsewhere(mem, a + SIZE, Digits(v, 4), a + IS_FREE, 4);
    PutElsewhere(mem, a + SIZE, Digits(v, 4), a + NEXT, 8);
  }

  lemma SetFreeFields(mem: seq<int>, a: int, v: int)
    requires 0 <= a && a + META <= |mem| && 0 <= v < WORD
    ensures FieldsAt(SetFree(mem, a, v), a) == FieldsAt(mem, a).(free := v)
  {
    WordFits(v);
    PutThenAt(mem, a + IS_FREE, Digits(v, 4));
    PutElsewhere(mem, a + IS_FREE, Digits(v, 4), a + SIZE, 4);
    PutElsewhere(mem, a + IS_FREE, Digits(v, 4), a + NEXT, 8);
  }

  lemma SetNextFields(mem: seq<int>, a: int, v: int)
    requires 0 <= a && a + META <= |mem| && 0 <= v < WORD
    ensures FieldsAt(SetNext(mem, a, v), a) == FieldsAt(mem, a).(next := v)
  {
    WordFits(v);
    PutThenAt(mem, a + NEXT, Digits(v, 8));
    PutElsewhere(mem, a + NEXT, Digits(v, 8), a + SIZE, 4);
    PutElsewhere(mem, a + NEXT, Digits(v, 8), a + IS_FREE, 4);
  }

  lemma SetPrevFields(mem: seq<int>, a: int, v: int)
    requires 0 <= a && a + META <= |mem|
    ensures FieldsAt(SetPrev(mem, a, v), a) == FieldsAt(mem, a)
  {
    PutElsewhere(mem, a + PREV, Digits(v, 8), a + SIZE, 4);
    PutElsewhere(mem, a + PREV, Digits(v, 8), a + IS_FREE, 4);
    PutElsewhere(mem, a + PREV, Digits(v, 8), a + NEXT, 8);
  }

  /** r is mem but for bytes from lo on below hi. */
  predicate Within(mem: seq<int>, r: seq<int>, lo: int, hi: int) {
    0 <= lo <= hi <= |mem| == |r| && r[..lo] == mem[..lo] && r[hi..] == mem[hi..]
  }

  lemma AtElsewhere(mem: seq<int>, r: seq<int>, lo: int, hi: int, c: int, n: nat)
    requires Within(mem, r, lo, hi) && 0 <= c && c + n <= |mem| && (c + n <= lo || hi <= c)
    ensures At(r, c, n) == At(mem, c, n)
  {
    if c + n <= lo {
      SliceOfTake(r, lo, c, n);
      SliceOfTake(mem, lo, c, n);
    } else {
      SliceOfDrop(r, hi, c, n);
      SliceOfDrop(mem, hi, c, n);
    }
  }

  lemma SliceOfTake(mem: seq<int>, lo: int, c: int, n: nat)
    requires 0 <= c && c + n <= lo <= |mem|
    ensures At(mem, c, n) == mem[..lo][c..c + n]
  {
  }

  lemma SliceOfDrop(mem: seq<int>, hi: int, c: int, n: nat)
    requires 0 <= hi <= c && c + n <= |mem|
    ensures At(mem, c, n) == mem[hi..][c - hi..c - hi + n]
  {
  }

  lemma FieldsElsewhere(mem: seq<int>, r: seq<int>, lo: int, hi: int, a: int)
    requires Within(mem, r, lo, hi) && 0 <= a && a + META <= |mem| && (a + META <= lo || hi <= a)
    ensures FieldsAt(r, a) == FieldsAt(mem, a)
  {
    AtElsewhere(mem, r, lo, hi, a + SIZE, 4);
    AtElsewhere(mem, r, lo, hi, a + IS_FREE, 4);
    AtElsewhere(mem, r, lo, hi, a + NEXT, 8);
  }

  lemma PutWithin(mem: seq<int>, a: int, bytes: seq<int>, lo: int, hi: int)
    requires 0 <= lo <= a && a + |bytes| <= hi <= |mem|
    ensures Within(mem, Put(mem, a, bytes), lo, hi)
  {
  }

  lemma WithinFurther(mem: seq<int>, m: seq<int>, r: seq<int>, lo: int, hi: int)
    requires Within(mem, m, lo, hi) && Within(m, r, lo, hi)
    ensures Within(mem, r, lo, hi)
  {
  }

  // ---------------------------------------------------------------- the list in memory

  function FieldsOf(e: Block, next: int): Fields {
    Fields(e.size, if e.free then 1 else 0, next)
  }

  /** The header at e's address says what e says, and its next is the one given. */
  predicate HeaderAt(mem: seq<int>, e: Block, next: int) {
    0 <= e.addr && e.addr + META <= |mem| && FieldsAt(mem, e.addr) == FieldsOf(e, next)
  }

  function NextOf(b: seq<Block>, i: nat): int {
    if i + 1 < |b| then b[i + 1].addr else 0
  }

  /** Following next from HEAD on, the headers in memory are the list. */
  predicate Stores(mem: seq<int>, b: seq<Block>) {
    forall i :: 0 <= i < |b| ==> HeaderAt(mem, b[i], NextOf(b, i))
  }

  lemma HeaderElsewhere(mem: seq<int>, r: seq<int>, lo: int, hi: int, e: Block, next: int)
    requires HeaderAt(mem, e, next) && Within(mem, r, lo, hi) && (e.addr + META <= lo || hi <= e.addr)
    ensures HeaderAt(r, e, next)
  {
    FieldsElsewhere(mem, r, lo, hi, e.addr);
  }

  // ---------------------------------------------------------------- what the allocator stores

  /** organizeMem's first three stores: the header of the rest. */
  function RestBytes(mem: seq<int>, e: Block, size: int): (r: seq<int>)
    requires 0 <= e.addr && 0 < size && e.size > size + META && End(e) <= |mem|
    ensures |r| == |mem|
  {
    var rest := e.addr + META + size;
    SetNext(SetFree(SetSize(mem, rest, e.size - META - size), rest, 1), rest, FieldsAt(mem, e.addr).next)
  }

  /** And its last three: the header of the block handed out. */
  function SplitBytes(mem: seq<int>, e: Block, size: int): (r: seq<int>)
    requires 0 <= e.addr && 0 < size && e.size > size + META && End(e) <= |mem|
    ensures |r| == |mem|
  {
    SetNext(SetSize(SetFree(RestBytes(mem, e, size), e.addr, 0), e.addr, size), e.addr, e.addr + META + size)
  }

  /** A block is handed out whole, or split when the rest can hold a header and more. */
  function TakeBytes(mem: seq<int>, e: Block, size: int): (r: seq<int>)
    requires 0 <= e.addr && 0 < size && 0 < e.size && End(e) <= |mem|
    ensures |r| == |mem|
  {
    if e.size > size + META then SplitBytes(mem, e, size) else SetFree(mem, e.addr, 0)
  }

  /** The start of the page behind the one that e's header is in. */
  function NewHeader(e: Block): int {
    (PageOf(e.addr) + 1) * PAGE_SIZE
  }

  /** The header at the start of a new page, and the link to it. */
  function NewPageBytes(mem: seq<int>, e: Block): (r: seq<int>)
    requires 0 <= e.addr && NewHeader(e) + META <= |mem|
    ensures |r| == |mem|
  {
    var a := NewHeader(e);
    SetNext(SetSize(SetFree(SetPrev(SetNext(mem, a, 0), a, e.addr), a, 1), a, PAGE_SIZE - META), e.addr, a)
  }

  /** The stores of the n-th round of growth, with the new page behind the old memory already. */
  function RoomBytes(mem: seq<int>, b: seq<Block>, k: nat, n: nat): (r: seq<int>)
    requires k < |b| && 0 <= b[k].addr && b[k].addr + META <= |mem|
    requires !b[k].free && n == 1 ==> NewHeader(b[k]) + META <= |mem|
    requires !b[k].free && n != 1 ==> k + 1 < |b| && 0 <= b[k + 1].addr && b[k + 1].addr + META <= |mem|
    ensures |r| == |mem|
  {
    if b[k].free then SetSize(mem, b[k].addr, b[k].size + PAGE_SIZE)
    else if n == 1 then NewPageBytes(mem, b[k])
    else SetSize(mem, b[k + 1].addr, b[k + 1].size + PAGE_SIZE)
  }

  /** Block e takes in the block behind it, whose next is read. */
  function MergeBytes(mem: seq<int>, e: Block, f: Block): (r: seq<int>)
    requires 0 <= e.addr && e.addr + META <= |mem| && 0 <= f.addr && f.addr + META <= |mem|
    ensures |r| == |mem|
  {
    SetFree(SetNext(SetSize(mem, e.addr, e.size + META + f.size), e.addr, FieldsAt(mem, f.addr).next), e.addr, 1)
  }

  // ---------------------------------------------------------------- the headers after the stores

  lemma HeaderWithin(mem: seq<int>, a: int, v: int)
    requires 0 <= a && a + META <= |mem|
    ensures Within(mem, SetSize(mem, a, v), a, a + META) && Within(mem, SetFree(mem, a, v), a, a + META)
    ensures Within(mem, SetNext(mem, a, v), a, a + META) && Within(mem, SetPrev(mem, a, v), a, a + META)
  {
    PutWithin(mem, a + SIZE, Digits(v, 4), a, a + META);
    PutWithin(mem, a + IS_FREE, Digits(v, 4), a, a + META);
    PutWithin(mem, a + NEXT, Digits(v, 8), a, a + META);
    PutWithin(mem, a + PREV, Digits(v, 8), a, a + META);
  }

  lemma FreeHeader(mem: seq<int>, a: int, size: int, next: int)
    requires 0 <= a && a + META <= |mem| && 0 <= size < WORD && 0 <= next < WORD
    ensures
      var r := SetNext(SetFree(SetSize(mem, a, size), a, 1), a, next);
      HeaderAt(r, Block(a, size, true), next) && Within(mem, r, a, a + META)
  {
    var m1 := SetSize(mem, a, size);
    var m2 := SetFree(m1, a, 1);
    SetSizeFields(mem, a, size);
    HeaderWithin(mem, a, size);
    SetFreeFields(m1, a, 1);
    HeaderWithin(m1, a, 1);
    SetNextFields(m2, a, next);
    HeaderWithin(m2, a, next);
    WithinFurther(mem, m1, m2, a, a + META);
    WithinFurther(mem, m2, SetNext(m2, a, next), a, a + META);
  }

  /** Three stores that write a whole header, prev aside. */
  lemma HandedHeader(mem: seq<int>, a: int, size: int, next: int)
    requires 0 <= a && a + META <= |mem| && 0 <= size < WORD && 0 <= next < WORD
    ensures
      var r := SetNext(SetSize(SetFree(mem, a, 0), a, size), a, next);
      HeaderAt(r, Block(a, size, false), next) && Within(mem, r, a, a + META)
  {
    var m1 := SetFree(mem, a, 0);
    var m2 := SetSize(m1, a, size);
    SetFreeFields(mem, a, 0);
    HeaderWithin(mem, a, 0);
    SetSizeFields(m1, a, size);
    HeaderWithin(m1, a, size);
    SetNextFields(m2, a, next);
    HeaderWithin(m2, a, next);
    WithinFurther(mem, m1, m2, a, a + META);
    WithinFurther(mem, m2, SetNext(m2, a, next), a, a + META);
  }

  lemma LastHeader(mem: seq<int>, a: int, prev: int)
    requires 0 <= a && a + META <= |mem|
    ensures
      var r := SetSize(SetFree(SetPrev(SetNext(mem, a, 0), a, prev), a, 1), a, PAGE_SIZE - META);
      HeaderAt(r, Block(a, PAGE_SIZE - META, true), 0) && Within(mem, r, a, a + META)
  {
    var m1 := SetNext(mem, a, 0);
    var m2 := SetPrev(m1, a, prev);
    var m3 := SetFree(m2, a, 1);
    SetNextFields(mem, a, 0);
    HeaderWithin(mem, a, 0);
    SetPrevFields(m1, a, prev);
    HeaderWithin(m1, a, prev);
    SetFreeFields(m2, a, 1);
    HeaderWithin(m2, a, 1);
    SetSizeFields(m3, a, PAGE_SIZE - META);
    HeaderWithin(m3, a, PAGE_SIZE - META);
    WithinFurther(mem, m1, m2, a, a + META);
    WithinFurther(mem, m2, m3, a, a + META);
    WithinFurther(mem, m3, SetSize(m3, a, PAGE_SIZE - META), a, a + META);
  }

  // ---------------------------------------------------------------- the list follows

  /** Byte a belongs to the caller of the block. */
  predicate InPayload(e: Block, a: int) {
    e.addr + META <= a < End(e)
  }

  /** What was handed out holds the bytes it held. */
  ghost predicate PayloadKept(mem: seq<int>, r: seq<int>, b: seq<Block>) {
    |mem| <= |r| && forall e, a :: e in Live(b) && InPayload(e, a) && 0 <= a < |mem| ==> r[a] == mem[a]
  }

  lemma PayloadFurther(mem: seq<int>, m: seq<int>, r: seq<int>, b: seq<Block>, c: seq<Block>)
    requires PayloadKept(mem, m, b) && PayloadKept(m, r, c) && Live(b) <= Live(c)
    ensures PayloadKept(mem, r, b)
  {
  }

  lemma ByteElsewhere(mem: seq<int>, r: seq<int>, lo: int, hi: int, a: int)
    requires Within(mem, r, lo, hi) && 0 <= a < |mem| && !(lo <= a < hi)
    ensures r[a] == mem[a]
  {
    if a < lo {
      assert r[..lo][a] == mem[..lo][a];
    } else {
      assert r[hi..][a - hi] == mem[hi..][a - hi];
    }
  }

  /** Block j lies apart from block k. */
  lemma Apart(b: seq<Block>, pages: nat, k: nat, j: nat)
    requires Tiled(b, pages) && k < |b| && j < |b| && j != k
    ensures End(b[j]) <= b[k].addr || End(b[k]) <= b[j].addr
    ensures 0 <= b[j].addr && End(b[j]) <= pages * PAGE_SIZE
  {
    TiledIsInside(b, pages, j);
    if j < k { TiledIsOrdered(b, pages, j, k); } else { TiledIsOrdered(b, pages, k, j); }
  }

  /** Stores inside block k, which is free or only its header stored to, keep all payloads. */
  lemma InsideKeepsPayload(mem: seq<int>, r: seq<int>, lo: int, hi: int, b: seq<Block>, pages: nat, k: nat)
    requires Within(mem, r, lo, hi) && Tiled(b, pages) && k < |b|
    requires b[k].addr <= lo && hi <= End(b[k]) && (b[k].free || hi <= b[k].addr + META)
    ensures PayloadKept(mem, r, b)
  {
    forall e, a | e in Live(b) && InPayload(e, a) && 0 <= a < |mem| ensures r[a] == mem[a] {
      var j :| 0 <= j < |b| && !b[j].free && b[j] == e;
      if j != k { Apart(b, pages, k, j); }
      ByteElsewhere(mem, r, lo, hi, a);
    }
  }

  /** And they keep the header of every other block. */
  lemma InsideKeepsHeader(mem: seq<int>, r: seq<int>, lo: int, hi: int, b: seq<Block>, pages: nat, k: nat, j: nat,
                          next: int)
    requires Within(mem, r, lo, hi) && Tiled(b, pages) && k < |b| && j < |b| && j != k
    requires b[k].addr <= lo && hi <= End(b[k]) && HeaderAt(mem, b[j], next)
    ensures HeaderAt(r, b[j], next)
  {
    Apart(b, pages, k, j);
    HeaderElsewhere(mem, r, lo, hi, b[j], next);
  }

  lemma NextInRange(b: seq<Block>, pages: nat, k: nat)
    requires Tiled(b, pages) && k < |b|
    ensures 0 <= NextOf(b, k) <= pages * PAGE_SIZE
  {
    if k + 1 < |b| { TiledIsInside(b, pages, k + 1); }
  }

  /** The two headers organizeMem leaves. */
  lemma SplitParts(mem: seq<int>, e: Block, size: int, next: int)
    requires HeaderAt(mem, e, next) && 0 < size && e.size > size + META && End(e) <= |mem| < WORD && 0 <= next < WORD
    ensures
      var rest, m, r := e.addr + META + size, RestBytes(mem, e, size), SplitBytes(mem, e, size);
      && Within(mem, m, rest, rest + META) && Within(m, r, e.addr, e.addr + META)
      && HeaderAt(r, Block(rest, e.size - META - size, true), next) && HeaderAt(r, Block(e.addr, size, false), rest)
  {
    hide Within, SetNext, SetSize, SetFree;
    var rest := e.addr + META + size;
    FreeHeader(mem, rest, e.size - META - size, next);
    var m := RestBytes(mem, e, size);
    HandedHeader(m, e.addr, size, rest);
    HeaderElsewhere(m, SplitBytes(mem, e, size), e.addr, e.addr + META, Block(rest, e.size - META - size, true), next);
  }

  /** organizeMem in memory is organizeMem on the list. */
  lemma SplitStores(mem: seq<int>, b: seq<Block>, pages: nat, k: nat, size: int)
    requires Stores(mem, b) && Tiled(b, pages) && |mem| == pages * PAGE_SIZE < WORD
    requires k < |b| && b[k].free && 0 < size && b[k].size > size + META
    ensures 0 <= b[k].addr && End(b[k]) <= |mem|
    ensures
      var r := SplitBytes(mem, b[k], size);
      Stores(r, OrganizeMem(b, k, size)) && PayloadKept(mem, r, b)
  {
    hide HeaderAt, Within, SplitBytes, RestBytes, PayloadKept;
    TiledIsInside(b, pages, k);
    NextInRange(b, pages, k);
    SplitParts(mem, b[k], size, NextOf(b, k));
    var m, r := RestBytes(mem, b[k], size), SplitBytes(mem, b[k], size);
    SplitKeepsPayload(mem, m, r, b, pages, k, size);
    SplitListStored(mem, m, r, b, pages, k, size);
  }

  lemma SplitKeepsPayload(mem: seq<int>, m: seq<int>, r: seq<int>, b: seq<Block>, pages: nat, k: nat, size: int)
    requires Tiled(b, pages) && k < |b| && b[k].free && 0 < size && b[k].size > size + META
    requires Within(mem, m, b[k].addr + META + size, b[k].addr + META + size + META)
    requires Within(m, r, b[k].addr, b[k].addr + META)
    ensures PayloadKept(mem, r, b)
  {
    var rest := b[k].addr + META + size;
    InsideKeepsPayload(mem, m, rest, rest + META, b, pages, k);
    InsideKeepsPayload(m, r, b[k].addr, b[k].addr + META, b, pages, k);
    PayloadFurther(mem, m, r, b, b);
  }

  lemma SplitListStored(mem: seq<int>, m: seq<int>, r: seq<int>, b: seq<Block>, pages: nat, k: nat, size: int)
    requires Stores(mem, b) && Tiled(b, pages) && k < |b| && 0 < size && b[k].size > size + META
    requires Within(mem, m, b[k].addr + META + size, b[k].addr + META + size + META)
    requires Within(m, r, b[k].addr, b[k].addr + META)
    requires HeaderAt(r, Block(b[k].addr + META + size, b[k].size - META - size, true), NextOf(b, k))
    requires HeaderAt(r, Block(b[k].addr, size, false), b[k].addr + META + size)
    ensures Stores(r, OrganizeMem(b, k, size))
  {
    hide HeaderAt, Within;
    var c := OrganizeMem(b, k, size);
    forall i | 0 <= i < |c| ensures HeaderAt(r, c[i], NextOf(c, i)) {
      SplitStored(mem, m, r, b, pages, k, size, i);
    }
  }

  /** Where the blocks are after a split. */
  lemma SplitEntry(b: seq<Block>, k: nat, size: int, i: nat)
    requires k < |b| && i <= |b|
    ensures
      var c, e, rest := OrganizeMem(b, k, size), b[k], b[k].addr + META + size;
      && |c| == |b| + 1
      && (i < k ==> c[i] == b[i] && NextOf(c, i) == NextOf(b, i))
      && (i == k ==> c[i] == Block(e.addr, size, false) && NextOf(c, i) == rest)
      && (i == k + 1 ==> c[i] == Block(rest, e.size - META - size, true) && NextOf(c, i) == NextOf(b, k))
      && (i > k + 1 ==> c[i] == b[i - 1] && NextOf(c, i) == NextOf(b, i - 1))
  {
  }

  lemma KeptBySplit(mem: seq<int>, m: seq<int>, r: seq<int>, b: seq<Block>, pages: nat, k: nat, size: int, j: nat)
    requires Tiled(b, pages) && k < |b| && 0 < size && b[k].size > size + META && j < |b| && j != k
    requires HeaderAt(mem, b[j], NextOf(b, j))
    requires Within(mem, m, b[k].addr + META + size, b[k].addr + META + size + META)
    requires Within(m, r, b[k].addr, b[k].addr + META)
    ensures HeaderAt(r, b[j], NextOf(b, j))
  {
    var rest := b[k].addr + META + size;
    InsideKeepsHeader(mem, m, rest, rest + META, b, pages, k, j, NextOf(b, j));
    InsideKeepsHeader(m, r, b[k].addr, b[k].addr + META, b, pages, k, j, NextOf(b, j));
  }

  lemma SplitStored(mem: seq<int>, m: seq<int>, r: seq<int>, b: seq<Block>, pages: nat, k: nat, size: int, i: nat)
    requires Stores(mem, b) && Tiled(b, pages) && k < |b| && 0 < size && b[k].size > size + META
    requires i < |OrganizeMem(b, k, size)|
    requires Within(mem, m, b[k].addr + META + size, b[k].addr + META + size + META)
    requires Within(m, r, b[k].addr, b[k].addr + META)
    requires HeaderAt(r, Block(b[k].addr + META + size, b[k].size - META - size, true), NextOf(b, k))
    requires HeaderAt(r, Block(b[k].addr, size, false), b[k].addr + META + size)
    ensures HeaderAt(r, OrganizeMem(b, k, size)[i], NextOf(OrganizeMem(b, k, size), i))
  {
    hide HeaderAt, Within, Stores, Tiled;
    SplitEntry(b, k, size, i);
    if i < k {
      StoredHeader(mem, b, i);
      KeptBySplit(mem, m, r, b, pages, k, size, i);
    } else if i > k + 1 {
      StoredHeader(mem, b, i - 1);
      KeptBySplit(mem, m, r, b, pages, k, size, i - 1);
    }
  }

  lemma OneHeaderStored(mem: seq<int>, r: seq<int>, b: seq<Block>, pages: nat, k: nat, e: Block, i: nat)
    requires Stores(mem, b) && Tiled(b, pages) && k < |b| && e.addr == b[k].addr && i < |b|
    requires Within(mem, r, e.addr, e.addr + META) && HeaderAt(r, e, NextOf(b, k))
    ensures HeaderAt(r, b[k := e][i], NextOf(b[k := e], i))
  {
    hide HeaderAt, Within;
    assert NextOf(b[k := e], i) == NextOf(b, i);
    assert 0 <= i < |b| ==> HeaderAt(mem, b[i], NextOf(b, i));
    TiledIsInside(b, pages, k);
    if i != k {
      InsideKeepsHeader(mem, r, e.addr, e.addr + META, b, pages, k, i, NextOf(b, i));
    }
  }

  /** One header changed: block k is now e, at the same place. */
  lemma OneHeaderStores(mem: seq<int>, r: seq<int>, b: seq<Block>, pages: nat, k: nat, e: Block)
    requires Stores(mem, b) && Tiled(b, pages) && k < |b| && e.addr == b[k].addr
    requires Within(mem, r, e.addr, e.addr + META) && HeaderAt(r, e, NextOf(b, k))
    ensures Stores(r, b[k := e]) && PayloadKept(mem, r, b)
  {
    hide HeaderAt, Within;
    InsideKeepsPayload(mem, r, e.addr, e.addr + META, b, pages, k);
    var c := b[k := e];
    forall i | 0 <= i < |c| ensures HeaderAt(r, c[i], NextOf(c, i)) {
      OneHeaderStored(mem, r, b, pages, k, e, i);
    }
  }

  lemma FlagHeader(mem: seq<int>, e: Block, next: int, free: bool)
    requires HeaderAt(mem, e, next)
    ensures
      var r := SetFree(mem, e.addr, if free then 1 else 0);
      HeaderAt(r, e.(free := free), next) && Within(mem, r, e.addr, e.addr + META)
  {
    hide FieldsAt, Within, SetFree;
    SetFreeFields(mem, e.addr, if free then 1 else 0);
    HeaderWithin(mem, e.addr, if free then 1 else 0);
  }

  lemma SizeHeader(mem: seq<int>, e: Block, next: int, size: int)
    requires HeaderAt(mem, e, next) && 0 <= size < WORD
    ensures
      var r := SetSize(mem, e.addr, size);
      HeaderAt(r, e.(size := size), next) && Within(mem, r, e.addr, e.addr + META)
  {
    hide FieldsAt, Within, SetSize;
    SetSizeFields(mem, e.addr, size);
    HeaderWithin(mem, e.addr, size);
  }

  lemma NextHeader(mem: seq<int>, e: Block, next: int, to: int)
    requires HeaderAt(mem, e, next) && 0 <= to < WORD
    ensures
      var r := SetNext(mem, e.addr, to);
      HeaderAt(r, e, to) && Within(mem, r, e.addr, e.addr + META)
  {
    hide FieldsAt, Within, SetNext;
    SetNextFields(mem, e.addr, to);
    HeaderWithin(mem, e.addr, to);
  }

  lemma StoredHeader(mem: seq<int>, b: seq<Block>, k: nat)
    requires Stores(mem, b) && k < |b|
    ensures HeaderAt(mem, b[k], NextOf(b, k)) && 0 <= b[k].addr && b[k].addr + META <= |mem|
  {
  }

  /** Marking block k used or free. */
  lemma FlagStores(mem: seq<int>, b: seq<Block>, pages: nat, k: nat, free: bool)
    requires Stores(mem, b) && Tiled(b, pages) && k < |b|
    ensures 0 <= b[k].addr && b[k].addr + META <= |mem|
    ensures
      var r := SetFree(mem, b[k].addr, if free then 1 else 0);
      Stores(r, b[k := b[k].(free := free)]) && PayloadKept(mem, r, b)
  {
    hide HeaderAt, Within, Stores, PayloadKept, SetFree;
    StoredHeader(mem, b, k);
    FlagHeader(mem, b[k], NextOf(b, k), free);
    OneHeaderStores(mem, SetFree(mem, b[k].addr, if free then 1 else 0), b, pages, k, b[k].(free := free));
  }

  /** Handing out block k. */
  lemma TakeStores(mem: seq<int>, b: seq<Block>, pages: nat, k: nat, size: int)
    requires Stores(mem, b) && Tiled(b, pages) && |mem| == pages * PAGE_SIZE < WORD
    requires k < |b| && Fits(b[k], size) && 0 < size
    ensures 0 <= b[k].addr && End(b[k]) <= |mem|
    ensures
      var r := TakeBytes(mem, b[k], size);
      Stores(r, TakeBlock(b, k, size)) && PayloadKept(mem, r, b)
  {
    TiledIsInside(b, pages, k);
    if b[k].size > size + META {
      SplitStores(mem, b, pages, k, size);
    } else {
      FlagStores(mem, b, pages, k, false);
    }
  }

  /** Making block k larger, in memory that has grown by as much. */
  lemma SizeStores(mem: seq<int>, b: seq<Block>, pages: nat, k: nat, size: int)
    requires Stores(mem, b) && Tiled(b, pages) && k < |b| && 0 <= size < WORD
    ensures 0 <= b[k].addr && b[k].addr + META <= |mem|
    ensures
      var r := SetSize(mem, b[k].addr, size);
      Stores(r, b[k := b[k].(size := size)]) && PayloadKept(mem, r, b)
  {
    hide HeaderAt, Within, Stores, PayloadKept, SetSize;
    StoredHeader(mem, b, k);
    SizeHeader(mem, b[k], NextOf(b, k), size);
    OneHeaderStores(mem, SetSize(mem, b[k].addr, size), b, pages, k, b[k].(size := size));
  }

  /** Memory that is longer holds the same list. */
  lemma LongerStores(mem: seq<int>, page: seq<int>, b: seq<Block>)
    requires Stores(mem, b)
    ensures Stores(mem + page, b) && PayloadKept(mem, mem + page, b)
  {
    var r := mem + page;
    forall i | 0 <= i < |b| ensures HeaderAt(r, b[i], NextOf(b, i)) {
      var a := b[i].addr;
      assert HeaderAt(mem, b[i], NextOf(b, i));
      assert At(r, a + SIZE, 4) == At(mem, a + SIZE, 4) && At(r, a + IS_FREE, 4) == At(mem, a + IS_FREE, 4);
      assert At(r, a + NEXT, 8) == At(mem, a + NEXT, 8);
    }
  }

  lemma NewPageParts(mem: seq<int>, e: Block, next: int)
    requires HeaderAt(mem, e, next) && End(e) <= NewHeader(e) && e.size > 0 && NewHeader(e) + META <= |mem| < WORD
    ensures
      var a := NewHeader(e);
      var m := SetSize(SetFree(SetPrev(SetNext(mem, a, 0), a, e.addr), a, 1), a, PAGE_SIZE - META);
      var r := NewPageBytes(mem, e);
      && r == SetNext(m, e.addr, a) && Within(mem, m, a, a + META) && Within(m, r, e.addr, e.addr + META)
      && HeaderAt(r, e, a) && HeaderAt(r, Block(a, PAGE_SIZE - META, true), 0)
  {
    hide FieldsAt, Within, SetNext, SetSize, SetFree, SetPrev;
    var a := NewHeader(e);
    var m := SetSize(SetFree(SetPrev(SetNext(mem, a, 0), a, e.addr), a, 1), a, PAGE_SIZE - META);
    LastHeader(mem, a, e.addr);
    HeaderElsewhere(mem, m, a, a + META, e, next);
    NextHeader(m, e, next, a);
    HeaderElsewhere(m, SetNext(m, e.addr, a), e.addr, e.addr + META, Block(a, PAGE_SIZE - META, true), 0);
  }

  /** Stores behind all blocks. */
  lemma BehindKeeps(mem: seq<int>, r: seq<int>, lo: int, hi: int, b: seq<Block>, pages: nat)
    requires Within(mem, r, lo, hi) && Tiled(b, pages) && pages * PAGE_SIZE <= lo
    ensures forall j, next :: 0 <= j < |b| && HeaderAt(mem, b[j], next) ==> HeaderAt(r, b[j], next)
    ensures PayloadKept(mem, r, b)
  {
    hide HeaderAt, Within;
    WithinLength(mem, r, lo, hi);
    forall j, next | 0 <= j < |b| && HeaderAt(mem, b[j], next) ensures HeaderAt(r, b[j], next) {
      TiledIsInside(b, pages, j);
      HeaderElsewhere(mem, r, lo, hi, b[j], next);
    }
    forall e, a | e in Live(b) && InPayload(e, a) && 0 <= a < |mem| ensures r[a] == mem[a] {
      var j :| 0 <= j < |b| && !b[j].free && b[j] == e;
      TiledIsInside(b, pages, j);
      ByteElsewhere(mem, r, lo, hi, a);
    }
  }

  lemma WithinLength(mem: seq<int>, r: seq<int>, lo: int, hi: int)
    requires Within(mem, r, lo, hi)
    ensures |r| == |mem|
  {
  }

  lemma NewPageStored(mem: seq<int>, m: seq<int>, r: seq<int>, b: seq<Block>, pages: nat, e: Block, i: nat)
    requires Stores(mem, b) && Tiled(b, pages) && e == b[|b| - 1] && i <= |b|
    requires Within(mem, m, pages * PAGE_SIZE, pages * PAGE_SIZE + META) && Within(m, r, e.addr, e.addr + META)
    requires HeaderAt(r, e, pages * PAGE_SIZE) && HeaderAt(r, Block(pages * PAGE_SIZE, PAGE_SIZE - META, true), 0)
    ensures
      var c := b + [Block(pages * PAGE_SIZE, PAGE_SIZE - META, true)];
      HeaderAt(r, c[i], NextOf(c, i))
  {
    hide HeaderAt, Within, Stores, PayloadKept;
    if i < |b| - 1 {
      StoredHeader(mem, b, i);
      BehindKeeps(mem, m, pages * PAGE_SIZE, pages * PAGE_SIZE + META, b, pages);
      InsideKeepsHeader(m, r, e.addr, e.addr + META, b, pages, |b| - 1, i, NextOf(b, i));
    }
  }

  lemma NewPageStores(mem: seq<int>, b: seq<Block>, pages: nat, e: Block)
    requires Stores(mem, b) && Tiled(b, pages) && e == b[|b| - 1] && e.size <= PAGE_SIZE - META
    requires |mem| == (pages + 1) * PAGE_SIZE < WORD
    ensures 0 <= e.addr && NewHeader(e) == pages * PAGE_SIZE
    ensures
      var r := NewPageBytes(mem, e);
      && Stores(r, b + [Block(pages * PAGE_SIZE, PAGE_SIZE - META, true)])
      && PayloadKept(mem, r, b)
  {
    hide HeaderAt, Within, NewPageBytes, PayloadKept, Stores, SetNext, SetSize, SetFree, SetPrev;
    HeaderInLastPageIff(b, pages);
    TiledIsInside(b, pages, |b| - 1);
    StoredHeader(mem, b, |b| - 1);
    NewPageParts(mem, e, NextOf(b, |b| - 1));
    var a := NewHeader(e);
    var m := SetSize(SetFree(SetPrev(SetNext(mem, a, 0), a, e.addr), a, 1), a, PAGE_SIZE - META);
    var r := NewPageBytes(mem, e);
    BehindKeeps(mem, m, a, a + META, b, pages);
    InsideKeepsPayload(m, r, e.addr, e.addr + META, b, pages, |b| - 1);
    PayloadFurther(mem, m, r, b, b);
    NewPageListStored(mem, m, r, b, pages, e);
  }

  lemma NewPageListStored(mem: seq<int>, m: seq<int>, r: seq<int>, b: seq<Block>, pages: nat, e: Block)
    requires Stores(mem, b) && Tiled(b, pages) && e == b[|b| - 1]
    requires Within(mem, m, pages * PAGE_SIZE, pages * PAGE_SIZE + META) && Within(m, r, e.addr, e.addr + META)
    requires HeaderAt(r, e, pages * PAGE_SIZE) && HeaderAt(r, Block(pages * PAGE_SIZE, PAGE_SIZE - META, true), 0)
    ensures Stores(r, b + [Block(pages * PAGE_SIZE, PAGE_SIZE - META, true)])
  {
    hide HeaderAt, Within;
    var c := b + [Block(pages * PAGE_SIZE, PAGE_SIZE - META, true)];
    forall i | 0 <= i < |c| ensures HeaderAt(r, c[i], NextOf(c, i)) {
      NewPageStored(mem, m, r, b, pages, e, i);
    }
  }

  /** A round of growth in memory is a round of growth on the list. */
  lemma RoomStores(mem: seq<int>, b: seq<Block>, pages: nat, k: nat, n: nat)
    requires Stores(mem, b) && Tiled(b, pages) && |mem| == (pages + 1) * PAGE_SIZE && |mem| + PAGE_SIZE < WORD
    requires NearEnd(b, k, n) && n >= 1 && (!b[k].free && n == 1 ==> b[k].size <= PAGE_SIZE - META)
    ensures 0 <= b[k].addr && b[k].addr + META <= |mem|
    ensures !b[k].free && n == 1 ==> NewHeader(b[k]) + META <= |mem|
    ensures !b[k].free && n != 1 ==> k + 1 < |b| && 0 <= b[k + 1].addr && b[k + 1].addr + META <= |mem|
    ensures Stores(RoomBytes(mem, b, k, n), AddPage(b, k, n)) && PayloadKept(mem, RoomBytes(mem, b, k, n), b)
  {
    hide HeaderAt, Stores, PayloadKept, NewPageBytes, SetSize;
    TiledIsInside(b, pages, k);
    if b[k].free {
      SizeStores(mem, b, pages, k, b[k].size + PAGE_SIZE);
    } else if n == 1 {
      HeaderInLastPageIff(b, pages);
      NewPageStores(mem, b, pages, b[k]);
    } else {
      TiledIsInside(b, pages, k + 1);
      SizeStores(mem, b, pages, k + 1, b[k + 1].size + PAGE_SIZE);
    }
  }

  // ---------------------------------------------------------------- freeing

  lemma MergedHeader(mem: seq<int>, e: Block, f: Block, next: int, behind: int)
    requires HeaderAt(mem, e, next) && HeaderAt(mem, f, behind) && 0 <= behind < WORD
    requires 0 <= e.size + META + f.size < WORD
    ensures
      var r := MergeBytes(mem, e, f);
      && HeaderAt(r, Block(e.addr, e.size + META + f.size, true), behind) && Within(mem, r, e.addr, e.addr + META)
  {
    hide Within, SetNext, SetSize, SetFree;
    var size := e.size + META + f.size;
    var m1 := SetSize(mem, e.addr, size);
    SizeHeader(mem, e, next, size);
    var m2 := SetNext(m1, e.addr, behind);
    NextHeader(m1, e.(size := size), next, behind);
    FlagHeader(m2, e.(size := size), behind, true);
    WithinFurther(mem, m1, m2, e.addr, e.addr + META);
    WithinFurther(mem, m2, MergeBytes(mem, e, f), e.addr, e.addr + META);
  }

  lemma MergeEntry(b: seq<Block>, k: nat, i: nat)
    requires k + 1 < |b| && i < |b| - 1
    ensures
      var c := Merge(b, k);
      && |c| == |b| - 1
      && (i < k ==> c[i] == b[i] && NextOf(c, i) == NextOf(b, i))
      && (i == k ==>
            c[i] == Block(b[k].addr, b[k].size + META + b[k + 1].size, true) && NextOf(c, i) == NextOf(b, k + 1))
      && (i > k ==> c[i] == b[i + 1] && NextOf(c, i) == NextOf(b, i + 1))
  {
  }

  lemma MergeStored(mem: seq<int>, r: seq<int>, b: seq<Block>, pages: nat, k: nat, i: nat)
    requires Stores(mem, b) && Tiled(b, pages) && k + 1 < |b| && i < |Merge(b, k)|
    requires Within(mem, r, b[k].addr, b[k].addr + META)
    requires HeaderAt(r, Block(b[k].addr, b[k].size + META + b[k + 1].size, true), NextOf(b, k + 1))
    ensures HeaderAt(r, Merge(b, k)[i], NextOf(Merge(b, k), i))
  {
    hide HeaderAt, Within;
    MergeEntry(b, k, i);
    if i != k {
      var j := if i < k then i else i + 1;
      InsideKeepsHeader(mem, r, b[k].addr, b[k].addr + META, b, pages, k, j, NextOf(b, j));
    }
  }

  lemma MergeListStored(mem: seq<int>, r: seq<int>, b: seq<Block>, pages: nat, k: nat)
    requires Stores(mem, b) && Tiled(b, pages) && k + 1 < |b|
    requires Within(mem, r, b[k].addr, b[k].addr + META)
    requires HeaderAt(r, Block(b[k].addr, b[k].size + META + b[k + 1].size, true), NextOf(b, k + 1))
    ensures Stores(r, Merge(b, k))
  {
    hide HeaderAt, Within;
    var c := Merge(b, k);
    forall i | 0 <= i < |c| ensures HeaderAt(r, c[i], NextOf(c, i)) {
      MergeStored(mem, r, b, pages, k, i);
    }
  }

  /** The forward merge in memory is the merge on the list. */
  lemma MergeStores(mem: seq<int>, b: seq<Block>, pages: nat, k: nat)
    requires Stores(mem, b) && Tiled(b, pages) && |mem| == pages * PAGE_SIZE < WORD && k + 1 < |b|
    ensures 0 <= b[k].addr && b[k].addr + META <= |mem| && 0 <= b[k + 1].addr && b[k + 1].addr + META <= |mem|
    ensures Stores(MergeBytes(mem, b[k], b[k + 1]), Merge(b, k)) && PayloadKept(mem, MergeBytes(mem, b[k], b[k + 1]), b)
  {
    hide HeaderAt, Within, PayloadKept, MergeBytes;
    TiledIsInside(b, pages, k);
    TiledIsInside(b, pages, k + 1);
    NextInRange(b, pages, k + 1);
    StoredHeader(mem, b, k);
    StoredHeader(mem, b, k + 1);
    MergedHeader(mem, b[k], b[k + 1], NextOf(b, k), NextOf(b, k + 1));
    var r := MergeBytes(mem, b[k], b[k + 1]);
    InsideKeepsPayload(mem, r, b[k].addr, b[k].addr + META, b, pages, k);
    MergeListStored(mem, r, b, pages, k);
  }
}
