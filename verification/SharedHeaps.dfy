/**
 * Many threads, each with its own heap at the same addresses. They allocate, free, read and
 * write in any order, with switches in between, and an access faults when its frame is
 * closed. Every heap stays the list that its headers in memory make up, and a byte that was
 * handed out changes only when its own thread writes to it.
 */
module SharedHeaps {
  import opened PageTable
  import opened PagingMoves
  import opened PagingRuns
  import opened AddressSpace
  import opened BlockList
  import opened Headers
  import opened Allocator
  import opened ThreadSpace
  import opened HeapCalls

  /** The memory, and the block list that each thread's headers are meant to make up. */
  datatype World = World(memory: Memory, heaps: map<int, seq<Block>>)

  function HeapOf(w: World, t: int): seq<Block> {
    if t in w.heaps then w.heaps[t] else []
  }

  /** Thread t owns p pages, and the headers in them are its list, which tiles them. */
  ghost predicate ThreadStored(w: World, t: int, p: nat)
    requires Tagged(w.memory)
  {
    && OwnedBy(w.memory, t, p) && Tiles(HeapOf(w, t), p) && FIRST_USER_PAGE + p <= FIRST_SWAP_PAGE
    && Stores(Image(w.memory, t, p), HeapOf(w, t))
  }

  ghost predicate ThreadOk(w: World, t: int)
    requires Tagged(w.memory)
  {
    OnlyLastFree(HeapOf(w, t)) && exists p: nat :: ThreadStored(w, t, p)
  }

  ghost predicate WorldOk(w: World) {
    Addressable(w.memory) && forall t :: t != NO_THREAD ==> ThreadOk(w, t)
  }

  // ---------------------------------------------------------------- steps

  datatype Step =
    | Malloc(size: int)
    | Release(ptr: Option<int>)
    | SwitchTo(to: int)
    | Read(a: int)
    | Write(a: int, v: int)
    | Adopt(id: int)

  /** Byte a was handed out to thread t. */
  ghost predicate Writable(w: World, t: int, a: int) {
    exists e :: e in Live(HeapOf(w, t)) && InPayload(e, a)
  }

  /**
   * What the steps need: calls as HeapCalls says, a switch to another thread, reads of the
   * thread's own pages, writes to what it was given, and a new number only for a thread
   * without pages.
   */
  ghost predicate Allowed(w: World, step: Step)
    requires Tagged(w.memory)
  {
    var s := w.memory;
    match step
    case Malloc(size) => MayMalloc(s, HeapOf(w, s.current), size)
    case Release(ptr) => exists p: nat :: Owns(s, p) && MayFree(s, p, HeapOf(w, s.current), ptr)
    case SwitchTo(to) => to != NO_THREAD && to != s.current
    case Read(a) => (s.current, a / PAGE_SIZE) in View(s)
    case Write(a, _) => Writable(w, s.current, a)
    case Adopt(id) => id != NO_THREAD && OwnedBy(s, s.current, 0) && OwnedBy(s, id, 0)
  }

  /** The running thread's list is now c. */
  predicate NewHeap(w: World, r: World, c: seq<Block>) {
    r.heaps == w.heaps[w.memory.current := c]
  }

  ghost predicate Does(w: World, step: Step, r: World)
    requires Tagged(w.memory)
  {
    var s := w.memory;
    match step
    case Malloc(size) =>
      exists p: nat, q: nat, c, ptr ::
        MallocDid(s, p, HeapOf(w, s.current), size, r.memory, q, c, ptr) && NewHeap(w, r, c)
    case Release(ptr) =>
      exists p: nat, q: nat, c :: FreeDid(s, p, HeapOf(w, s.current), ptr, r.memory, q, c) && NewHeap(w, r, c)
    case SwitchTo(to) => r == w.(memory := Switch(s, to))
    case Read(a) => r == w.(memory := Touch(s, a / PAGE_SIZE))
    case Write(a, v) => r == w.(memory := Poke(s, a, v))
    case Adopt(id) => r == w.(memory := s.(current := id))
  }

  ghost predicate StepsTo(w: World, step: Step, r: World) {
    Tagged(w.memory) && Allowed(w, step) && Does(w, step, r)
  }

  /** initAll, before any thread has a heap. */
  lemma InitWorldOk(pages: seq<Page>, tid: int)
    requires |pages| == LAST_SWAP_PAGE && tid != NO_THREAD
    ensures WorldOk(World(InitAll(pages, tid), map[]))
  {
    hide Inv, Layered, PlacedOpen, HeadOpen, InitAll, Unique;
    var w := World(InitAll(pages, tid), map[]);
    InitAllAddressable(pages, tid);
    InitAllInv(pages, tid);
    AddressableTagged(w.memory);
    forall t | t != NO_THREAD ensures ThreadOk(w, t) {
      assert OwnedBy(w.memory, t, 0);
      assert ThreadStored(w, t, 0);
    }
  }

  // ---------------------------------------------------------------- one thread's share

  lemma OwnsOnce(s: Memory, t: int, p: nat, q: nat)
    requires Tagged(s) && OwnedBy(s, t, p) && OwnedBy(s, t, q)
    ensures p == q
  {
    hide View;
    assert (t, p) in View(s) <==> 0 <= p < q;
    assert (t, q) in View(s) <==> 0 <= q < p;
  }

  lemma CurrentHeap(w: World) returns (p: nat)
    requires WorldOk(w)
    ensures Tagged(w.memory) && HeapStored(w.memory, p, HeapOf(w, w.memory.current))
  {
    hide Addressable, Stores, Image, OwnedBy, Tiles, OnlyLastFree;
    AddressableTagged(w.memory);
    assert ThreadOk(w, w.memory.current);
    p :| ThreadStored(w, w.memory.current, p);
    OwnsIs(w.memory, p);
  }

  lemma OwnsIs(s: Memory, p: nat)
    requires Tagged(s)
    ensures Owns(s, p) <==> OwnedBy(s, s.current, p)
  {
  }

  lemma StoredIsOk(w: World, p: nat)
    requires Tagged(w.memory) && HeapStored(w.memory, p, HeapOf(w, w.memory.current))
    ensures ThreadOk(w, w.memory.current)
  {
    hide Addressable, Stores, Image, OwnedBy, Tiles, OnlyLastFree;
    OwnsIs(w.memory, p);
    assert ThreadStored(w, w.memory.current, p);
  }

  lemma OtherImage(s: Memory, r: Memory, t: int, p: nat)
    requires Tagged(s) && Tagged(r) && OthersSame(s, r) && t != s.current
    ensures OwnedBy(s, t, p) ==> OwnedBy(r, t, p)
    ensures Image(r, t, p) == Image(s, t, p)
  {
    hide View, Tagged;
    forall n ensures (t, n) in View(r) <==> (t, n) in View(s) {
      assert (t, n).0 != s.current;
    }
  }

  lemma OtherStaysOk(w: World, r: World, t: int)
    requires Tagged(w.memory) && Tagged(r.memory) && OthersSame(w.memory, r.memory)
    requires t != w.memory.current && HeapOf(r, t) == HeapOf(w, t) && ThreadOk(w, t)
    ensures ThreadOk(r, t)
  {
    hide Tagged, Stores, Image, OwnedBy, Tiles, OnlyLastFree, OthersSame;
    var p: nat :| ThreadStored(w, t, p);
    OtherImage(w.memory, r.memory, t, p);
    assert ThreadStored(r, t, p);
  }

  /** Same pages, same bytes. */
  lemma SameViewStaysOk(w: World, r: World, t: int)
    requires Tagged(w.memory) && Tagged(r.memory) && View(r.memory) == View(w.memory)
    requires HeapOf(r, t) == HeapOf(w, t) && ThreadOk(w, t)
    ensures ThreadOk(r, t)
  {
    hide Tagged, Stores, Image, Tiles, OnlyLastFree, View;
    var p: nat :| ThreadStored(w, t, p);
    SameImage(w.memory, r.memory, t, p);
    assert ThreadStored(r, t, p);
  }

  // ---------------------------------------------------------------- every step keeps the invariant

  /** A call, or a write, by the running thread. */
  lemma OwnStepKeepsWorld(w: World, r: World, p: nat, q: nat, mem: seq<int>, c: seq<Block>)
    requires WorldOk(w) && Did(w.memory, p, r.memory, q, mem) && NewHeap(w, r, c)
    requires HeapStored(r.memory, q, c)
    ensures WorldOk(r)
  {
    hide Stores, Image, OwnedBy, Tiles, OnlyLastFree, OthersSame, PlacesKept, Inv, Layered, PlacedOpen, HeadOpen;
    DidParts(w.memory, p, r.memory, q, mem);
    ReadySized(w.memory, p);
    ReadySized(r.memory, q);
    forall t | t != NO_THREAD ensures ThreadOk(r, t) {
      if t == w.memory.current {
        StoredIsOk(r, q);
      } else {
        assert ThreadOk(w, t);
        OtherStaysOk(w, r, t);
      }
    }
  }

  lemma ChangedParts(s: Memory, p: nat, b: seq<Block>, r: Memory, q: nat, c: seq<Block>)
    requires Changed(s, p, b, r, q, c)
    ensures Tagged(s) && Tagged(r) && Did(s, p, r, q, Image(r, r.current, q)) && Stores(Image(r, r.current, q), c)
    ensures PayloadKept(Image(s, s.current, p), Image(r, r.current, q), b)
  {
  }

  /** A failed call leaves the world as it was. */
  lemma NothingKeepsWorld(w: World, r: World)
    requires WorldOk(w) && r.memory == w.memory && NewHeap(w, r, HeapOf(w, w.memory.current))
    ensures WorldOk(r)
  {
    hide Addressable, ThreadStored, OnlyLastFree;
    AddressableTagged(w.memory);
    forall t | t != NO_THREAD ensures ThreadOk(r, t) {
      assert ThreadOk(w, t) && HeapOf(r, t) == HeapOf(w, t);
      var p: nat :| ThreadStored(w, t, p);
      SameStored(w, r, t, p);
    }
  }

  lemma SameStored(w: World, r: World, t: int, p: nat)
    requires Tagged(w.memory) && ThreadStored(w, t, p) && r.memory == w.memory && HeapOf(r, t) == HeapOf(w, t)
    ensures ThreadStored(r, t, p)
  {
  }

  lemma MallocKeepsWorld(w: World, size: int, r: World)
    requires WorldOk(w) && StepsTo(w, Malloc(size), r)
    ensures WorldOk(r)
  {
    hide WorldOk, MayMalloc, HeapStored, Changed, GetHead, Placed, Allocate, Tiles, OnlyLastFree, Handed, Tagged;
    var s, b := w.memory, HeapOf(w, w.memory.current);
    var p0 := CurrentHeap(w);
    StoredParts(s, p0, b);
    var p: nat, q: nat, c, ptr :| MallocDid(s, p, b, size, r.memory, q, c, ptr) && NewHeap(w, r, c);
    if size <= 0 || size > USER_SIZE - META || !GetHead(s, MALLOC_FLAG).1 {
      NothingKeepsWorld(w, r);
    } else {
      ChangedOwns(s, p, b, r.memory, q, c, p0);
      MallocKeeps(s, p, b, size, r.memory, q, c, ptr);
      CallKeepsWorld(w, r, p, q, c);
    }
  }

  lemma ChangedOwns(s: Memory, p: nat, b: seq<Block>, r: Memory, q: nat, c: seq<Block>, p0: nat)
    requires Changed(s, p, b, r, q, c) && HeapStored(s, p0, b)
    ensures p == p0
  {
    hide Addressable, Stores, Image, OwnedBy, Tiles, OnlyLastFree, PayloadKept, OthersSame, PlacesKept;
    ChangedParts(s, p, b, r, q, c);
    DidParts(s, p, r, q, Image(r, r.current, q));
    OwnsOnce(s, s.current, p, p0);
  }

  lemma CallKeepsWorld(w: World, r: World, p: nat, q: nat, c: seq<Block>)
    requires WorldOk(w) && Changed(w.memory, p, HeapOf(w, w.memory.current), r.memory, q, c) && NewHeap(w, r, c)
    requires Tiles(c, q) && OnlyLastFree(c)
    ensures WorldOk(r)
  {
    hide WorldOk, Stores, Image, Tiles, OnlyLastFree, PayloadKept, Did;
    ChangedParts(w.memory, p, HeapOf(w, w.memory.current), r.memory, q, c);
    DidParts(w.memory, p, r.memory, q, Image(r.memory, r.memory.current, q));
    PagesBelowSwap(r.memory, q);
    OwnStepKeepsWorld(w, r, p, q, Image(r.memory, r.memory.current, q), c);
  }

  /** What a thread owns is named by frames of memory. */
  lemma PagesBelowSwap(s: Memory, p: nat)
    requires Ready(s, p)
    ensures FIRST_USER_PAGE + p <= FIRST_SWAP_PAGE
  {
    hide Addressable, View;
    ReadySized(s, p);
    if p > 0 {
      assert (s.current, p - 1) in View(s) <==> 0 <= p - 1 < p;
      AddressableParts(s);
      OpenMeansInPlace(s, p - 1);
    }
  }

  lemma ReleaseKeepsWorld(w: World, ptr: Option<int>, r: World)
    requires WorldOk(w) && StepsTo(w, Release(ptr), r)
    ensures WorldOk(r)
  {
    hide WorldOk, MayFree, HeapStored, Changed, GetHead, Tiles, OnlyLastFree, Tagged, Owns, Deallocate;
    var s, b := w.memory, HeapOf(w, w.memory.current);
    var p0 := CurrentHeap(w);
    StoredParts(s, p0, b);
    var p: nat, q: nat, c :| FreeDid(s, p, b, ptr, r.memory, q, c) && NewHeap(w, r, c);
    if !GetHead(s, FREE_FLAG).1 {
      NothingKeepsWorld(w, r);
    } else {
      ChangedOwns(s, p, b, r.memory, q, c, p0);
      FreeKeeps(s, p, b, ptr, r.memory, q, c);
      CallKeepsWorld(w, r, p, q, c);
    }
  }

  lemma LiveInside(b: seq<Block>, p: nat, e: Block, a: int)
    requires Tiles(b, p) && e in Live(b) && InPayload(e, a)
    ensures 0 <= a < p * PAGE_SIZE
  {
    var i :| 0 <= i < |b| && b[i] == e;
    TiledIsInside(b, p, i);
  }

  /** A byte of a payload belongs to no header. */
  lemma WriteKeepsHeaders(mem: seq<int>, b: seq<Block>, p: nat, e: Block, a: int, v: int)
    requires Stores(mem, b) && Tiled(b, p) && |mem| == p * PAGE_SIZE && e in Live(b) && InPayload(e, a)
    ensures 0 <= a < |mem| && Stores(mem[a := v], b)
  {
    hide HeaderAt, Within, Tiled;
    var k :| 0 <= k < |b| && !b[k].free && b[k] == e;
    TiledIsInside(b, p, k);
    var r := mem[a := v];
    OneByteWithin(mem, a, v);
    forall i | 0 <= i < |b| ensures HeaderAt(r, b[i], NextOf(b, i)) {
      if i != k { Apart(b, p, k, i); }
      SizesPositive(b, p, i);
      HeaderElsewhere(mem, r, a, a + 1, b[i], NextOf(b, i));
    }
  }

  lemma SizesPositive(b: seq<Block>, p: nat, i: nat)
    requires Tiled(b, p) && i < |b|
    ensures b[i].size > 0
  {
  }

  lemma OneByteWithin(mem: seq<int>, a: int, v: int)
    requires 0 <= a < |mem|
    ensures Within(mem, mem[a := v], a, a + 1)
  {
  }

  lemma WriteKeepsWorld(w: World, a: int, v: int, r: World)
    requires WorldOk(w) && StepsTo(w, Write(a, v), r)
    ensures WorldOk(r)
  {
    hide WorldOk, Did, Image, Stores, Live, InPayload, Ready, Poke, OnlyLastFree;
    var s, b := w.memory, HeapOf(w, w.memory.current);
    var p := CurrentHeap(w);
    var e :| e in Live(b) && InPayload(e, a);
    LiveInside(b, p, e, a);
    StoredParts(s, p, b);
    LiveNotEmpty(b, e);
    WriteKeepsHeaders(Image(s, s.current, p), b, p, e, a, v);
    PokeStores(s, p, a, v);
    var mem := Image(s, s.current, p)[a := v];
    DidParts(s, p, r.memory, p, mem);
    SameHeap(w, r, b);
    HeapsSame(w, r, p, mem, b);
  }

  lemma LiveNotEmpty(b: seq<Block>, e: Block)
    requires e in Live(b)
    ensures b != []
  {
  }

  lemma SameHeap(w: World, r: World, b: seq<Block>)
    requires r.heaps == w.heaps && b == HeapOf(w, w.memory.current)
    ensures forall t :: HeapOf(r, t) == HeapOf(w, t)
  {
  }

  /** A step of the running thread that keeps its list. */
  lemma HeapsSame(w: World, r: World, p: nat, mem: seq<int>, b: seq<Block>)
    requires WorldOk(w) && Did(w.memory, p, r.memory, p, mem) && r.heaps == w.heaps
    requires b == HeapOf(w, w.memory.current) && Tiles(b, p) && OnlyLastFree(b) && Stores(mem, b)
    ensures WorldOk(r)
  {
    hide WorldOk, Image, Stores, OnlyLastFree, Tiles, OthersSame, PlacesKept;
    DidParts(w.memory, p, r.memory, p, mem);
    PagesBelowSwap(r.memory, p);
    ReadySized(r.memory, p);
    var r' := World(r.memory, w.heaps[w.memory.current := b]);
    OwnStepKeepsWorld(w, r', p, p, mem, b);
    assert forall t :: HeapOf(r', t) == HeapOf(r, t);
    SameHeaps(r', r);
  }

  lemma SameHeaps(w: World, r: World)
    requires WorldOk(w) && r.memory == w.memory && forall t :: HeapOf(r, t) == HeapOf(w, t)
    ensures WorldOk(r)
  {
    hide Addressable, ThreadStored, OnlyLastFree;
    AddressableTagged(w.memory);
    forall t | t != NO_THREAD ensures ThreadOk(r, t) {
      assert ThreadOk(w, t);
      var p: nat :| ThreadStored(w, t, p);
      SameStored(w, r, t, p);
    }
  }

  lemma MoveKeepsWorld(w: World, m: Memory)
    requires WorldOk(w) && Addressable(m) && Tagged(w.memory) && Tagged(m) && View(m) == View(w.memory)
    ensures WorldOk(w.(memory := m))
  {
    hide Addressable, View, ThreadStored, OnlyLastFree, Tagged;
    forall t | t != NO_THREAD ensures ThreadOk(w.(memory := m), t) {
      assert ThreadOk(w, t);
      SameViewStaysOk(w, w.(memory := m), t);
    }
  }

  lemma SwitchKeepsWorld(w: World, to: int)
    requires WorldOk(w) && to != NO_THREAD && to != w.memory.current
    ensures WorldOk(w.(memory := Switch(w.memory, to)))
  {
    hide Addressable, View, ThreadOk, Switch, Inv;
    AddressableParts(w.memory);
    SwitchKeepsAddressableIff(w.memory, to);
    SwitchStep(w.memory, to);
    AddressableTagged(w.memory);
    AddressableTagged(Switch(w.memory, to));
    MoveKeepsWorld(w, Switch(w.memory, to));
  }

  lemma ReadKeepsWorld(w: World, a: int)
    requires WorldOk(w) && Tagged(w.memory) && (w.memory.current, a / PAGE_SIZE) in View(w.memory)
    ensures WorldOk(w.(memory := Touch(w.memory, a / PAGE_SIZE)))
  {
    hide Addressable, View, ThreadOk, Touch, Inv;
    AddressableTagged(w.memory);
    TouchReaches(w.memory, a / PAGE_SIZE);
    AddressableTagged(Touch(w.memory, a / PAGE_SIZE));
    MoveKeepsWorld(w, Touch(w.memory, a / PAGE_SIZE));
  }

  lemma StepKeepsWorld(w: World, step: Step, r: World)
    requires WorldOk(w) && StepsTo(w, step, r)
    ensures WorldOk(r)
  {
    hide WorldOk, Tagged, View, Switch, Touch, Poke, MayMalloc, MayFree, MallocDid, FreeDid, Writable, OwnedBy, Owns;
    match step
    case Malloc(size) => MallocKeepsWorld(w, size, r);
    case Release(ptr) => ReleaseKeepsWorld(w, ptr, r);
    case SwitchTo(to) => SwitchKeepsWorld(w, to);
    case Read(a) => ReadKeepsWorld(w, a);
    case Write(a, v) => WriteKeepsWorld(w, a, v, r);
    case Adopt(id) => AdoptKeepsWorld(w, id);
  }

  // ---------------------------------------------------------------- adoption

  /** A thread without pages can go on under another number that has none. */
  lemma AdoptKeepsWorld(w: World, id: int)
    requires WorldOk(w) && Tagged(w.memory) && id != NO_THREAD
    requires OwnedBy(w.memory, w.memory.current, 0) && OwnedBy(w.memory, id, 0)
    ensures WorldOk(w.(memory := w.memory.(current := id)))
  {
    hide ThreadOk;
    AdoptKeepsAddressable(w.memory, id);
    AdoptKeepsView(w.memory, id);
    MoveKeepsWorld(w, w.memory.(current := id));
  }

  lemma AdoptKeepsView(s: Memory, id: int)
    requires Tagged(s) && id != NO_THREAD
    ensures Tagged(s.(current := id)) && View(s.(current := id)) == View(s)
  {
    assert Keys(s.(current := id)) == Keys(s);
  }

  lemma NoFrame(s: Memory, t: int)
    requires Tagged(s) && OwnedBy(s, t, 0)
    ensures forall y :: User(y) && s.table[y].inUse ==> s.table[y].tid != t
  {
    forall y | User(y) && s.table[y].inUse ensures s.table[y].tid != t {
      assert Key(s.table[y]) in Keys(s);
      assert (s.table[y].tid, s.table[y].pageNum) in View(s);
    }
  }

  lemma AdoptKeepsAddressable(s: Memory, id: int)
    requires Addressable(s) && Tagged(s) && id != NO_THREAD && OwnedBy(s, s.current, 0) && OwnedBy(s, id, 0)
    ensures Addressable(s.(current := id))
  {
    hide Inv, Layered, PlacedOpen, HeadOpen;
    AddressableParts(s);
    NoFrame(s, s.current);
    NoFrame(s, id);
    AdoptStep(s, id);
    AdoptKeepsLayers(s, id);
    NothingPlaced(s.(current := id));
  }

  lemma AdoptKeepsLayers(s: Memory, id: int)
    requires Sized(s) && Layered(s)
    ensures Layered(s.(current := id))
  {
    var r := s.(current := id);
    forall y | User(y) && r.table[y].inUse ensures Layer(r, r.table[y].pageNum) {
      assert Layer(s, s.table[y].pageNum);
    }
  }

  lemma NothingPlaced(s: Memory)
    requires Tagged(s) && forall y :: User(y) && s.table[y].inUse ==> s.table[y].tid != s.current
    ensures PlacedOpen(s) && HeadOpen(s)
  {
    forall y | User(y) ensures s.table[y].tid != s.current {
      assert s.table[y].inUse <==> s.table[y].tid != NO_THREAD;
    }
  }
}
