/**
 * bitmap.c: allocation of block and inode numbers from a bitmap of 128 words, in place,
 * and findFreeBlock of block.c on top of it.
 */
module Bitmap {
  const WORD_BITS: nat := 32
  const WORDS: nat := 128
  const BITS: nat := 4096
  const NBIT_BLOCK: nat := 3

  /** Bit l of a machine word, by the shift and mask of testBit. */
  predicate Shifted(w: bv32, l: bv32) {
    l < 32 && (w >> l) & 1 == 1
  }

  /** The shift amount for bit i. */
  function Place(i: nat): bv32 {
    if i == 0 then 0 else Place(i - 1) + 1
  }

  lemma NextPlace(l: bv32)
    requires l < 32
    ensures (l + 1) as int == l as int + 1
  {
  }

  lemma {:induction false} PlaceIs(i: nat)
    requires i < WORD_BITS
    ensures Place(i) < 32 && Place(i) as int == i
  {
    if i > 0 {
      PlaceIs(i - 1);
      NextPlace(Place(i - 1));
    }
  }

  lemma PlacesDiffer(i: nat, j: nat)
    requires i < WORD_BITS && j < WORD_BITS
    ensures Place(i) < 32 && Place(j) < 32 && (Place(i) == Place(j) <==> i == j)
  {
    PlaceIs(i);
    PlaceIs(j);
  }

  /** Bit l of a machine word, counted from the least significant. */
  predicate Bit(w: bv32, l: nat) {
    if l == 0 then w & 1 == 1 else Bit(w >> 1, l - 1)
  }

  lemma ShiftFurther(w: bv32, p: bv32, q: bv32)
    requires p < 32 && q == p + 1 && q < 32
    ensures Shifted(w, q) == Shifted(w >> 1, p)
  {
  }

  lemma NoShift(w: bv32)
    ensures Shifted(w, 0) == (w & 1 == 1)
  {
  }

  /** Shift and mask find the bit. */
  lemma {:induction false} BitIsShifted(w: bv32, l: nat, p: bv32, isSet: bool)
    requires l < WORD_BITS && p == Place(l) && isSet == Shifted(w, p)
    ensures Bit(w, l) == isSet
  {
    if l == 0 {
      NoShift(w);
    } else {
      var q := Place(l - 1);
      PlacesDiffer(l - 1, l);
      ShiftFurther(w, q, p);
      BitIsShifted(w >> 1, l - 1, q, Shifted(w >> 1, q));
    }
  }

  lemma SetBitAt(w: bv32, r: bv32, pl: bv32, pm: bv32, l: nat, m: nat, was: bool, now: bool)
    requires pl < 32 && pm < 32 && (pl == pm <==> l == m) && r == w | (1 << pl)
    requires was == Shifted(w, pm) && now == Shifted(r, pm)
    ensures now == (l == m || was)
  {
  }

  /** Or-ing in 1 << l sets bit l and no other. */
  lemma SetBit(w: bv32, r: bv32, pl: bv32, pm: bv32, l: nat, m: nat, was: bool, now: bool)
    requires l < WORD_BITS && m < WORD_BITS && pl == Place(l) && pm == Place(m) && pl < 32 && r == w | (1 << pl)
    requires was == Bit(w, m) && now == Bit(r, m)
    ensures now == (l == m || was)
  {
    PlacesDiffer(l, m);
    BitIsShifted(w, m, pm, Shifted(w, pm));
    BitIsShifted(r, m, pm, Shifted(r, pm));
    SetBitAt(w, r, pl, pm, l, m, was, now);
  }

  lemma ClearBitAt(w: bv32, r: bv32, pl: bv32, pm: bv32, l: nat, m: nat, was: bool, now: bool)
    requires pl < 32 && pm < 32 && (pl == pm <==> l == m) && r == w & !(1 << pl)
    requires was == Shifted(w, pm) && now == Shifted(r, pm)
    ensures now == (l != m && was)
  {
  }

  /** And-ing with the complement of 1 << l clears bit l and no other. */
  lemma ClearBit(w: bv32, r: bv32, pl: bv32, pm: bv32, l: nat, m: nat, was: bool, now: bool)
    requires l < WORD_BITS && m < WORD_BITS && pl == Place(l) && pm == Place(m) && pl < 32 && r == w & !(1 << pl)
    requires was == Bit(w, m) && now == Bit(r, m)
    ensures now == (l != m && was)
  {
    PlacesDiffer(l, m);
    BitIsShifted(w, m, pm, Shifted(w, pm));
    BitIsShifted(r, m, pm, Shifted(r, pm));
    ClearBitAt(w, r, pl, pm, l, m, was, now);
  }

  /** A machine word as its bits, least significant first. */
  type Word = w: seq<bool> | |w| == WORD_BITS witness seq(WORD_BITS, _ => false)

  type Words = w: seq<Word> | |w| == WORDS witness seq(WORDS, _ => seq(WORD_BITS, _ => false))

  function Bits(w: bv32): Word {
    seq(WORD_BITS, i requires 0 <= i < WORD_BITS => Bit(w, i))
  }

  function WordsOf(a: seq<bv32>): Words
    requires |a| == WORDS
  {
    seq(WORDS, i requires 0 <= i < WORDS => Bits(a[i]))
  }

  predicate TestBit(b: Words, k: nat)
    requires k < BITS
  {
    b[k / WORD_BITS][k % WORD_BITS]
  }

  /** The numbers in use. */
  ghost function Live(b: Words): set<nat> {
    set k: nat | k < BITS && TestBit(b, k)
  }

  function Abs(k: int): nat {
    if k < 0 then -k else k
  }

  function WithBit(b: Words, k: nat): Words
    requires k < BITS
  {
    b[k / WORD_BITS := b[k / WORD_BITS][k % WORD_BITS := true]]
  }

  function WithoutBit(b: Words, k: nat): Words
    requires k < BITS
  {
    b[k / WORD_BITS := b[k / WORD_BITS][k % WORD_BITS := false]]
  }

  /** The least clear bit of word 0 from l on, or 32. */
  function FirstClear(b: Words, l: nat): (r: nat)
    requires l <= WORD_BITS
    ensures l <= r <= WORD_BITS
    ensures forall m :: l <= m < r ==> TestBit(b, m)
    ensures r < WORD_BITS ==> !TestBit(b, r)
    decreases WORD_BITS - l
  {
    if l == WORD_BITS || !TestBit(b, l) then l else FirstClear(b, l + 1)
  }

  lemma FirstClearIs(b: Words, l: nat, r: nat)
    requires l <= r <= WORD_BITS && (r < WORD_BITS ==> !b[0][r]) && forall m :: l <= m < r ==> b[0][m]
    ensures FirstClear(b, l) == r
  {
    var k := FirstClear(b, l);
    assert k < r ==> TestBit(b, k);
    assert r < k ==> TestBit(b, r);
  }

  /** findFirstFree: its bit counter is not reset, so it looks at bits 1 to 31 of word 0 only. */
  function FindFirstFree(b: Words): (Words, int) {
    var l := FirstClear(b, 1);
    if l < WORD_BITS then (WithBit(b, l), l) else (b, -1)
  }

  // ---------------------------------------------------------------- the set of numbers in use

  lemma WithBitTests(b: Words, k: nat, m: nat)
    requires k < BITS && m < BITS
    ensures TestBit(WithBit(b, k), m) == (m == k || TestBit(b, m))
  {
  }

  lemma WithoutBitTests(b: Words, k: nat, m: nat)
    requires k < BITS && m < BITS
    ensures TestBit(WithoutBit(b, k), m) == (m != k && TestBit(b, m))
  {
  }

  /**
   * findFirstFree hands out the least free number from 1 to 31, and marks it and no other;
   * it fails, changing nothing, exactly when these are all in use, whatever the rest.
   */
  lemma FindFirstFreeEffect(b: Words)
    ensures
      var (r, k) := FindFirstFree(b);
      && (k == -1 <==> forall m: nat :: 1 <= m < 32 ==> m in Live(b))
      && (k == -1 ==> r == b)
      && (k != -1 ==>
            && 1 <= k < 32 && k !in Live(b) && Live(r) == Live(b) + {k}
            && forall m: nat :: 1 <= m < k ==> m in Live(b))
  {
    var l := FirstClear(b, 1);
    forall m: nat | m < BITS ensures m in Live(b) <==> TestBit(b, m) {
    }
    if l < WORD_BITS {
      forall m: nat | m < BITS ensures m in Live(WithBit(b, l)) <==> m == l || m in Live(b) {
        WithBitTests(b, l, m);
      }
      assert Live(WithBit(b, l)) == Live(b) + {l};
    }
  }

  lemma ClearBitEffect(b: Words, k: nat)
    requires k < BITS
    ensures Live(WithoutBit(b, k)) == Live(b) - {k}
  {
    forall m: nat | m < BITS ensures m in Live(WithoutBit(b, k)) <==> m != k && m in Live(b) {
      WithoutBitTests(b, k, m);
    }
  }

  // ---------------------------------------------------------------- histories

  datatype Op = FindOp | ClearOp(k: int)

  predicate OpOk(op: Op) {
    op.ClearOp? ==> Abs(op.k) < BITS
  }

  /** The bitmap after the operation, and the number it hands out, or -1. */
  function Do(b: Words, op: Op): (Words, int)
    requires OpOk(op)
  {
    match op
    case FindOp => FindFirstFree(b)
    case ClearOp(k) => (WithoutBit(b, Abs(k)), -1)
  }

  ghost predicate History(maps: seq<Words>, ops: seq<Op>) {
    && |maps| == |ops| + 1
    && forall i :: 0 <= i < |ops| ==> OpOk(ops[i]) && maps[i + 1] == Do(maps[i], ops[i]).0
  }

  function Given(maps: seq<Words>, ops: seq<Op>, i: nat): int
    requires i < |ops| && i < |maps| && OpOk(ops[i])
  {
    Do(maps[i], ops[i]).1
  }

  lemma {:induction false} LiveUntilCleared(maps: seq<Words>, ops: seq<Op>, i: nat, j: nat, k: nat)
    requires History(maps, ops) && i <= j < |maps| && k in Live(maps[i])
    requires forall m :: i <= m < j && ops[m].ClearOp? ==> Abs(ops[m].k) != k
    ensures k in Live(maps[j])
    decreases j
  {
    if i < j {
      LiveUntilCleared(maps, ops, i, j - 1, k);
      match ops[j - 1]
      case FindOp => FindFirstFreeEffect(maps[j - 1]);
      case ClearOp(c) => ClearBitEffect(maps[j - 1], Abs(c));
    }
  }

  /** No number is handed out twice without being cleared in between, and 0 never is. */
  lemma NotGivenTwice(maps: seq<Words>, ops: seq<Op>, i: nat, j: nat)
    requires History(maps, ops) && i < j < |ops|
    requires OpOk(ops[i]) && OpOk(ops[j]) && Given(maps, ops, i) == Given(maps, ops, j) != -1
    ensures Given(maps, ops, i) > 0
    ensures exists m :: i < m < j && ops[m].ClearOp? && Abs(ops[m].k) == Given(maps, ops, i)
  {
    var k := Given(maps, ops, i);
    FindFirstFreeEffect(maps[i]);
    FindFirstFreeEffect(maps[j]);
    if forall m :: i < m < j && ops[m].ClearOp? ==> Abs(ops[m].k) != k {
      LiveUntilCleared(maps, ops, i + 1, j, k);
    }
  }

  // ---------------------------------------------------------------- blocks

  /** findFreeBlock over the bitmap blocks from i on. */
  function FindFreeBlock(maps: seq<Words>, i: nat): (seq<Words>, int)
    requires |maps| == NBIT_BLOCK && i < NBIT_BLOCK
    decreases NBIT_BLOCK - i
  {
    var (b, k) := FindFirstFree(maps[i]);
    if k > 0 then (maps[i := b], k)
    else if i + 1 < NBIT_BLOCK then FindFreeBlock(maps, i + 1)
    else (maps, k)
  }

  lemma {:induction false} LaterBlockRange(maps: seq<Words>, i: nat)
    requires |maps| == NBIT_BLOCK && i < NBIT_BLOCK
    ensures var k := FindFreeBlock(maps, i).1; k == -1 || 1 <= k < 32
    decreases NBIT_BLOCK - i
  {
    FindFirstFreeEffect(maps[i]);
    if FindFirstFree(maps[i]).1 <= 0 && i + 1 < NBIT_BLOCK {
      LaterBlockRange(maps, i + 1);
    }
  }

  /**
   * A block number that findFreeBlock returns is free exactly when the first bitmap block
   * still had one: the numbers from the other bitmap blocks lack their base, and are the
   * same 1 to 31 again.
   */
  lemma FindFreeBlockIsFreshIff(maps: seq<Words>)
    requires |maps| == NBIT_BLOCK && FindFreeBlock(maps, 0).1 > 0
    ensures
      var k := FindFreeBlock(maps, 0).1;
      k !in Live(maps[0]) <==> exists m: nat :: 1 <= m < 32 && m !in Live(maps[0])
  {
    FindFirstFreeEffect(maps[0]);
    LaterBlockRange(maps, 0);
  }

  /** Bitmap i has a number from 1 to 31 that is free. */
  ghost predicate HasRoom(b: Words) {
    exists m: nat :: 1 <= m < 32 && m !in Live(b)
  }

  /**
   * findFreeBlock marks, in the first of the three bitmaps that has room, its least free number,
   * and returns that number as it is; it fails, changing nothing, when none has room.
   */
  lemma {:induction false} FindFreeBlockEffect(maps: seq<Words>, i: nat, j: nat)
    requires |maps| == NBIT_BLOCK && i <= j <= NBIT_BLOCK && i < NBIT_BLOCK
    requires (forall m :: i <= m < j ==> !HasRoom(maps[m])) && (j < NBIT_BLOCK ==> HasRoom(maps[j]))
    ensures
      var (r, k) := FindFreeBlock(maps, i);
      && |r| == NBIT_BLOCK
      && (j == NBIT_BLOCK ==> k == -1 && r == maps)
      && (j < NBIT_BLOCK ==>
            && 1 <= k < 32 && k !in Live(maps[j]) && (forall m: nat :: 1 <= m < k ==> m in Live(maps[j]))
            && Live(r[j]) == Live(maps[j]) + {k}
            && forall m :: 0 <= m < NBIT_BLOCK && m != j ==> r[m] == maps[m])
    decreases NBIT_BLOCK - i
  {
    FindFirstFreeEffect(maps[i]);
    if i < j {
      assert !HasRoom(maps[i]);
      if i + 1 < NBIT_BLOCK {
        FindFreeBlockEffect(maps, i + 1, j);
      }
    }
  }

  /** n calls of findFreeBlock, one after the other. */
  function Calls(maps: seq<Words>, n: nat): (r: seq<Words>)
    requires |maps| == NBIT_BLOCK
    ensures |r| == NBIT_BLOCK
  {
    if n == 0 then maps
    else
      KeepsCount(Calls(maps, n - 1), 0);
      FindFreeBlock(Calls(maps, n - 1), 0).0
  }

  lemma {:induction false} KeepsCount(maps: seq<Words>, i: nat)
    requires |maps| == NBIT_BLOCK && i < NBIT_BLOCK
    ensures |FindFreeBlock(maps, i).0| == NBIT_BLOCK
    decreases NBIT_BLOCK - i
  {
    if FindFirstFree(maps[i]).1 <= 0 && i + 1 < NBIT_BLOCK {
      KeepsCount(maps, i + 1);
    }
  }

  predicate Empty(b: Words) {
    forall k: nat :: k < BITS ==> !TestBit(b, k)
  }

  lemma {:induction false} FirstCalls(maps: seq<Words>, n: nat)
    requires |maps| == NBIT_BLOCK && (forall i :: 0 <= i < NBIT_BLOCK ==> Empty(maps[i])) && n <= 31
    ensures
      var r := Calls(maps, n);
      && Empty(r[1]) && forall m: nat :: m in Live(r[0]) <==> 1 <= m <= n
  {
    if n > 0 {
      FirstCalls(maps, n - 1);
      var was := Calls(maps, n - 1);
      FindFirstFreeEffect(was[0]);
      assert n !in Live(was[0]);
    }
  }

  /**
   * On a new disk the first 31 calls give 1 to 31, and the 32nd gives 1 again, while block 1
   * is in use.
   */
  lemma BlockGivenTwice(maps: seq<Words>, n: nat)
    requires |maps| == NBIT_BLOCK && (forall i :: 0 <= i < NBIT_BLOCK ==> Empty(maps[i])) && n <= 31
    ensures FindFreeBlock(Calls(maps, n), 0).1 == if n < 31 then n + 1 else 1
    ensures n == 31 ==> 1 in Live(Calls(maps, n)[0])
  {
    FirstCalls(maps, n);
    var r := Calls(maps, n);
    FindFirstFreeEffect(r[0]);
    FindFirstFreeEffect(r[1]);
    if n < 31 {
      assert n + 1 !in Live(r[0]);
    } else {
      assert 1 !in Live(r[1]);
    }
  }

  // ---------------------------------------------------------------- the methods

  lemma WordsOfUpdate(a: seq<bv32>, i: nat, w: bv32)
    requires |a| == WORDS && i < WORDS
    ensures WordsOf(a[i := w]) == WordsOf(a)[i := Bits(w)]
  {
  }

  /** w | 1 << l */
  method Or(w: bv32, l: nat) returns (r: bv32)
    requires l < WORD_BITS
    ensures Bits(r) == Bits(w)[l := true]
  {
    hide Place, Bit;
    PlacesDiffer(l, l);
    var p := Place(l);
    r := w | (1 << p);
    forall m: nat | m < WORD_BITS ensures Bit(r, m) == (l == m || Bit(w, m)) {
      SetBit(w, r, p, Place(m), l, m, Bit(w, m), Bit(r, m));
    }
  }

  /** w & ~(1 << l) */
  method AndNot(w: bv32, l: nat) returns (r: bv32)
    requires l < WORD_BITS
    ensures Bits(r) == Bits(w)[l := false]
  {
    hide Place, Bit;
    PlacesDiffer(l, l);
    var p := Place(l);
    r := w & !(1 << p);
    forall m: nat | m < WORD_BITS ensures Bit(r, m) == (l != m && Bit(w, m)) {
      ClearBit(w, r, p, Place(m), l, m, Bit(w, m), Bit(r, m));
    }
  }

  /** (w >> l) & 1 */
  method Test(w: bv32, l: nat) returns (result: bool)
    requires l < WORD_BITS
    ensures result == Bits(w)[l]
  {
    hide Place, Bit;
    PlacesDiffer(l, l);
    var p := Place(l);
    result := (w >> p) & 1 == 1;
    BitIsShifted(w, l, p, result);
  }

  /** bitmap[i] |= 1 << l */
  method Mark(bitmap: array<bv32>, i: nat, l: nat)
    requires bitmap.Length == WORDS && i < WORDS && l < WORD_BITS
    modifies bitmap
    ensures
      var b := WordsOf(old(bitmap[..]));
      WordsOf(bitmap[..]) == b[i := b[i][l := true]]
  {
    var w := Or(bitmap[i], l);
    WordsOfUpdate(bitmap[..], i, w);
    bitmap[i] := w;
  }

  /** The inner loop: the next clear bit of one word, or 32. */
  method Scan(w: bv32, start: nat) returns (l: nat)
    requires start <= WORD_BITS
    ensures start <= l <= WORD_BITS && (l < WORD_BITS ==> !Bits(w)[l])
    ensures forall m :: start <= m < l ==> Bits(w)[m]
  {
    l := start;
    while l < 32
      invariant start <= l <= 32 && forall m :: start <= m < l ==> Bits(w)[m]
    {
      var used := Test(w, l);
      if !used {
        return l;
      }
      l := l + 1;
    }
  }

  lemma MarkIsWithBit(b: Words, i: nat, l: nat)
    requires i < WORDS && l < WORD_BITS
    ensures i * 32 + l < BITS && b[i := b[i][l := true]] == WithBit(b, i * 32 + l)
  {
  }

  /** The loop over the words; the bit counter goes on from word to word. */
  method FindFirstFreeIn(bitmap: array<bv32>) returns (k: int)
    requires bitmap.Length == WORDS
    modifies bitmap
    ensures (WordsOf(bitmap[..]), k) == FindFirstFree(WordsOf(old(bitmap[..])))
  {
    var i, l := 0, 1;
    ghost var b := WordsOf(bitmap[..]);
    while i < WORDS
      invariant i <= WORDS && bitmap[..] == old(bitmap[..])
      invariant if i == 0 then l == 1 else l == 32 && FirstClear(b, 1) == 32
    {
      l := Scan(bitmap[i], l);
      if l < 32 {
        FirstClearIs(b, 1, l);
        Mark(bitmap, i, l);
        MarkIsWithBit(b, i, l);
        return i * 32 + l;
      }
      if i == 0 {
        FirstClearIs(b, 1, 32);
      }
      i := i + 1;
    }
    return -1;
  }

  method ClearBitIn(bitmap: array<bv32>, bitK: int)
    requires bitmap.Length == WORDS && Abs(bitK) < BITS
    modifies bitmap
    ensures WordsOf(bitmap[..]) == WithoutBit(WordsOf(old(bitmap[..])), Abs(bitK))
    ensures Live(WordsOf(bitmap[..])) == Live(WordsOf(old(bitmap[..]))) - {if bitK < 0 then -bitK else bitK}
  {
    ClearBitEffect(WordsOf(bitmap[..]), Abs(bitK));
    var i, pos := Abs(bitK) / WORD_BITS, Abs(bitK) % WORD_BITS;
    var w := AndNot(bitmap[i], pos);
    WordsOfUpdate(bitmap[..], i, w);
    bitmap[i] := w;
  }

  method TestBitIn(bitmap: array<bv32>, bitK: nat) returns (result: bool)
    requires bitmap.Length == WORDS && bitK < BITS
    ensures result <==> bitK in Live(WordsOf(bitmap[..]))
  {
    var i := bitK / WORD_BITS;
    var pos := if bitK < 32 then bitK else bitK % WORD_BITS;
    result := Test(bitmap[i], pos);
  }
}
