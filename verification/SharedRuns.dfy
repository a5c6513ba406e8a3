/**
 * Whole runs of many threads on their heaps: any interleaving of calls, reads, writes and
 * switches, with the faults that they bring. Every byte that was handed out holds what its own
 * thread stored there last, until that thread frees its block.
 */
module SharedRuns {
  import opened PageTable
  import opened PagingMoves
  import opened PagingRuns
  import opened AddressSpace
  import opened BlockList
  import opened Headers
  import opened Allocator
  import opened ThreadSpace
  import opened HeapCalls
  import opened SharedHeaps

  /** The steps lead from each world to the next. */
  ghost predicate IsRun(ws: seq<World>, steps: seq<SharedHeaps.Step>) {
    |ws| == |steps| + 1 && forall i :: 0 <= i < |steps| ==> StepsTo(ws[i], steps[i], ws[i + 1])
  }

  /** However the threads take turns, each one's headers in memory make up its list, and the list its pages. */
  lemma {:induction false} RunKeepsWorld(ws: seq<World>, steps: seq<SharedHeaps.Step>, i: nat)
    requires IsRun(ws, steps) && WorldOk(ws[0]) && i < |ws|
    ensures WorldOk(ws[i])
    decreases i
  {
    hide WorldOk, StepsTo;
    if i > 0 {
      RunKeepsWorld(ws, steps, i - 1);
      StepKeepsWorld(ws[i - 1], steps[i - 1], ws[i]);
    }
  }

  // ---------------------------------------------------------------- what a step spares

  /** Other threads keep their lists, their pages and what these hold. */
  ghost predicate Spares(w: World, r: World)
    requires Tagged(w.memory) && Tagged(r.memory)
  {
    OthersSame(w.memory, r.memory) && forall t :: t != w.memory.current ==> HeapOf(r, t) == HeapOf(w, t)
  }

  lemma WorldTagged(w: World)
    requires WorldOk(w)
    ensures Tagged(w.memory)
  {
    hide ThreadOk;
    AddressableTagged(w.memory);
  }

  lemma SameViewSpares(s: Memory, r: Memory)
    requires Tagged(s) && Tagged(r) && View(r) == View(s)
    ensures OthersSame(s, r)
  {
    hide View;
  }

  lemma DidSpares(s: Memory, p: nat, r: Memory, q: nat, mem: seq<int>)
    requires Did(s, p, r, q, mem)
    ensures Tagged(s) && Tagged(r) && OthersSame(s, r)
  {
    hide Image, PlacesKept;
    DidParts(s, p, r, q, mem);
    ReadySized(s, p);
    ReadySized(r, q);
  }

  /** What a call of the running thread comes to: it failed, or it changed the thread's own memory. */
  ghost predicate Calls(w: World, p: nat, r: World, q: nat, c: seq<Block>) {
    var s, b := w.memory, HeapOf(w, w.memory.current);
    && NewHeap(w, r, c)
    && ((r.memory == s && c == b) || Changed(s, p, b, r.memory, q, c))
  }

  lemma MallocCalls(w: World, size: int, r: World) returns (p: nat, q: nat, c: seq<Block>, ptr: Option<int>)
    requires WorldOk(w) && StepsTo(w, Malloc(size), r)
    ensures HeapStored(w.memory, p, HeapOf(w, w.memory.current)) && Calls(w, p, r, q, c)
    ensures Handed(HeapOf(w, w.memory.current), c, ptr, size)
  {
    hide WorldOk, MayMalloc, HeapStored, Changed, GetHead, Placed, Allocate, Tiles, OnlyLastFree, Handed, Tagged;
    var s, b := w.memory, HeapOf(w, w.memory.current);
    p := CurrentHeap(w);
    StoredParts(s, p, b);
    var p': nat, q': nat, c', ptr' :| MallocDid(s, p', b, size, r.memory, q', c', ptr') && NewHeap(w, r, c');
    q, c, ptr := q', c', ptr';
    if size <= 0 || size > USER_SIZE - META || !GetHead(s, MALLOC_FLAG).1 {
      NothingHanded(b, size);
    } else {
      ChangedOwns(s, p', b, r.memory, q, c, p);
      MallocKeeps(s, p, b, size, r.memory, q, c, ptr);
    }
  }

  lemma ReleaseCalls(w: World, ptr: Option<int>, r: World) returns (p: nat, q: nat, c: seq<Block>)
    requires WorldOk(w) && StepsTo(w, Release(ptr), r)
    ensures HeapStored(w.memory, p, HeapOf(w, w.memory.current)) && Calls(w, p, r, q, c)
    ensures
      var b := HeapOf(w, w.memory.current);
      c == b || c == if ptr.None? then Headed(b) else Deallocate(Headed(b), ptr.value)
  {
    hide WorldOk, MayFree, HeapStored, Changed, GetHead, Tiles, OnlyLastFree, Tagged, Owns, Deallocate;
    var s, b := w.memory, HeapOf(w, w.memory.current);
    p := CurrentHeap(w);
    StoredParts(s, p, b);
    var p': nat, q': nat, c' :| FreeDid(s, p', b, ptr, r.memory, q', c') && NewHeap(w, r, c');
    q, c := q', c';
    if GetHead(s, FREE_FLAG).1 {
      ChangedOwns(s, p', b, r.memory, q, c, p);
    }
  }

  lemma CallSpares(w: World, p: nat, r: World, q: nat, c: seq<Block>)
    requires WorldOk(w) && Calls(w, p, r, q, c)
    ensures Tagged(w.memory) && Tagged(r.memory) && Spares(w, r)
  {
    hide WorldOk, Did, Stores, PayloadKept, Image, Tagged;
    WorldTagged(w);
    if r.memory == w.memory {
      SameViewSpares(w.memory, r.memory);
    } else {
      ChangedParts(w.memory, p, HeapOf(w, w.memory.current), r.memory, q, c);
      DidSpares(w.memory, p, r.memory, q, Image(r.memory, r.memory.current, q));
    }
  }

  /** The steps that only move pages, or the thread number. */
  lemma MoveSame(w: World, step: SharedHeaps.Step, r: World)
    requires WorldOk(w) && StepsTo(w, step, r) && !step.Malloc? && !step.Release? && !step.Write?
    ensures Tagged(w.memory) && Tagged(r.memory) && View(r.memory) == View(w.memory) && r.heaps == w.heaps
  {
    hide ThreadOk, Addressable, View, Tagged, Touch, Switch, Unique, Accounted, Sealed, OwnedBy;
    AddressableTagged(w.memory);
    AddressableParts(w.memory);
    match step
    case SwitchTo(to) =>
      SwitchStep(w.memory, to);
      InvUnique(Switch(w.memory, to));
    case Read(a) =>
      TouchReaches(w.memory, a / PAGE_SIZE);
      AddressableTagged(Touch(w.memory, a / PAGE_SIZE));
    case Adopt(id) => AdoptKeepsView(w.memory, id);
  }

  lemma WriteDid(w: World, a: int, v: int, r: World) returns (p: nat)
    requires WorldOk(w) && StepsTo(w, Write(a, v), r)
    ensures Tagged(w.memory) && 0 <= a < p * PAGE_SIZE
    ensures Did(w.memory, p, r.memory, p, Image(w.memory, w.memory.current, p)[a := v]) && r.heaps == w.heaps
  {
    hide WorldOk, Did, Image, Stores, Live, InPayload, Ready, Poke, OnlyLastFree;
    var s, b := w.memory, HeapOf(w, w.memory.current);
    p := CurrentHeap(w);
    var e :| e in Live(b) && InPayload(e, a);
    LiveInside(b, p, e, a);
    StoredParts(s, p, b);
    PokeStores(s, p, a, v);
  }

  lemma StepSpares(w: World, step: SharedHeaps.Step, r: World)
    requires WorldOk(w) && StepsTo(w, step, r)
    ensures Tagged(w.memory) && Tagged(r.memory) && Spares(w, r)
  {
    hide WorldOk, StepsTo, Calls, HeapStored, OthersSame, View, Did, Image, Handed, Deallocate, Tagged;
    match step
    case Malloc(size) =>
      var p, q, c, ptr := MallocCalls(w, size, r);
      CallSpares(w, p, r, q, c);
    case Release(ptr) =>
      var p, q, c := ReleaseCalls(w, ptr, r);
      CallSpares(w, p, r, q, c);
    case Write(a, v) =>
      var p := WriteDid(w, a, v, r);
      DidSpares(w.memory, p, r.memory, p, Image(w.memory, w.memory.current, p)[a := v]);
    case _ =>
      MoveSame(w, step, r);
      SameViewSpares(w.memory, r.memory);
  }

  // ---------------------------------------------------------------- what a step does to a payload

  /** Block e is handed out to thread t. */
  ghost predicate Holds(w: World, t: int, e: Block) {
    e in Live(HeapOf(w, t))
  }

  /** Byte a of thread t holds v. */
  ghost predicate Reads(w: World, t: int, a: int, v: int) {
    Tagged(w.memory) && ByteAt(w.memory, t, a) == v
  }

  /** Thread t frees e. */
  predicate GivesBack(w: World, step: SharedHeaps.Step, t: int, e: Block) {
    w.memory.current == t && step == Release(Some(e.addr + META))
  }

  /** What byte a of thread t holds after the step, if it was v and was handed out. */
  function After(w: World, step: SharedHeaps.Step, t: int, a: int, v: int): int {
    if w.memory.current == t && step.Write? && step.a == a then step.v else v
  }

  lemma SparedByte(w: World, r: World, t: int, a: int)
    requires Tagged(w.memory) && Tagged(r.memory) && Spares(w, r) && t != w.memory.current
    ensures ByteAt(r.memory, t, a) == ByteAt(w.memory, t, a) && HeapOf(r, t) == HeapOf(w, t)
  {
    hide View, Tagged;
    var k := (t, a / PAGE_SIZE);
    assert k.0 != w.memory.current;
  }

  /** A byte of a page of the thread's image. */
  lemma ImageByte(s: Memory, t: int, p: nat, a: int)
    requires Tagged(s) && 0 <= a < p * PAGE_SIZE
    ensures Image(s, t, p)[a] == ByteAt(s, t, a)
  {
    hide Tagged, ByteAt;
  }

  lemma LiveInPages(s: Memory, p: nat, b: seq<Block>, e: Block, a: int)
    requires HeapStored(s, p, b) && e in Live(b) && InPayload(e, a)
    ensures Tagged(s) && 0 <= a < p * PAGE_SIZE
  {
    hide Ready, Stores, Image, OnlyLastFree, Live, Tiled, InPayload;
    StoredParts(s, p, b);
    LiveInside(b, p, e, a);
  }

  /** A call keeps the bytes of every block that was handed out to the thread. */
  lemma CallKeepsByte(w: World, p: nat, r: World, q: nat, c: seq<Block>, e: Block, a: int)
    requires WorldOk(w) && HeapStored(w.memory, p, HeapOf(w, w.memory.current)) && Calls(w, p, r, q, c)
    requires Holds(w, w.memory.current, e) && InPayload(e, a)
    ensures Tagged(w.memory) && Tagged(r.memory)
    ensures ByteAt(r.memory, w.memory.current, a) == ByteAt(w.memory, w.memory.current, a)
    ensures HeapOf(r, w.memory.current) == c
  {
    hide WorldOk, Did, Stores, Image, Tagged, HeapStored, Live, ByteAt, InPayload;
    var s, b := w.memory, HeapOf(w, w.memory.current);
    WorldTagged(w);
    LiveInPages(s, p, b, e, a);
    if r.memory != s {
      ChangedParts(s, p, b, r.memory, q, c);
      DidParts(s, p, r.memory, q, Image(r.memory, r.memory.current, q));
      KeptByte(Image(s, s.current, p), Image(r.memory, r.memory.current, q), b, e, a);
      ImageByte(s, s.current, p, a);
      ImageByte(r.memory, r.memory.current, q, a);
    }
  }

  lemma KeptByte(mem: seq<int>, r: seq<int>, b: seq<Block>, e: Block, a: int)
    requires PayloadKept(mem, r, b) && e in Live(b) && InPayload(e, a) && 0 <= a < |mem|
    ensures |mem| <= |r| && r[a] == mem[a]
  {
  }

  lemma HandedKeeps(b: seq<Block>, c: seq<Block>, ptr: Option<int>, size: int, e: Block)
    requires Handed(b, c, ptr, size) && e in Live(b)
    ensures e in Live(c)
  {
    hide Live;
  }

  /** Freeing another pointer, or none, keeps a block handed out. */
  lemma FreedKeeps(b: seq<Block>, pages: nat, ptr: int, e: Block)
    requires Tiled(b, pages) && e in Live(b) && ptr != e.addr + META
    ensures e in Live(Deallocate(b, ptr))
  {
    hide Deallocate, Tiled;
    if exists k :: 0 <= k < |b| && !b[k].free && b[k].addr + META == ptr {
      var k: nat :| k < |b| && !b[k].free && b[k].addr + META == ptr;
      DeallocateFreesIff(b, pages, k);
    } else {
      forall f | f in Live(b) ensures f.addr + META != ptr {
      }
      DeallocateElsewhere(b, ptr);
    }
  }

  lemma ReleaseKeepsLive(s: Memory, p: nat, b: seq<Block>, ptr: Option<int>, c: seq<Block>, e: Block)
    requires HeapStored(s, p, b) && e in Live(b) && ptr != Some(e.addr + META)
    requires c == b || c == if ptr.None? then Headed(b) else Deallocate(Headed(b), ptr.value)
    ensures e in Live(c)
  {
    hide Ready, Stores, Image, OnlyLastFree, Deallocate;
    StoredParts(s, p, b);
    LiveNotEmpty(b, e);
    if ptr.Some? {
      FreedKeeps(b, p, ptr.value, e);
    }
  }

  lemma WrittenByte(w: World, v: int, r: World, p: nat, c: int, a: int)
    requires Tagged(w.memory) && 0 <= c < p * PAGE_SIZE && 0 <= a < p * PAGE_SIZE
    requires Did(w.memory, p, r.memory, p, Image(w.memory, w.memory.current, p)[c := v])
    ensures Tagged(r.memory) && r.memory.current == w.memory.current
    ensures ByteAt(r.memory, w.memory.current, a) == if a == c then v else ByteAt(w.memory, w.memory.current, a)
  {
    hide Image, Tagged, Ready, OthersSame, PlacesKept, ByteAt;
    var s := w.memory;
    DidParts(s, p, r.memory, p, Image(s, s.current, p)[c := v]);
    ReadySized(r.memory, p);
    ImageByte(s, s.current, p, a);
    ImageByte(r.memory, s.current, p, a);
  }

  /** A step of the thread itself: its block stays, but for its free, and a byte changes only by its store. */
  lemma OwnStepKeepsByte(w: World, step: SharedHeaps.Step, r: World, e: Block, a: int)
    requires WorldOk(w) && StepsTo(w, step, r) && InPayload(e, a)
    requires Holds(w, w.memory.current, e) && !GivesBack(w, step, w.memory.current, e)
    ensures Tagged(w.memory) && Tagged(r.memory) && Holds(r, w.memory.current, e)
    ensures
      var t := w.memory.current;
      ByteAt(r.memory, t, a) == After(w, step, t, a, ByteAt(w.memory, t, a))
  {
    hide WorldOk, StepsTo, Calls, HeapStored, View, Did, Image, Handed, Deallocate, Live, Tagged, InPayload;
    var t, b := w.memory.current, HeapOf(w, w.memory.current);
    match step
    case Malloc(size) =>
      var p, q, c, ptr := MallocCalls(w, size, r);
      CallKeepsByte(w, p, r, q, c, e, a);
      HandedKeeps(b, c, ptr, size, e);
    case Release(ptr) =>
      var p, q, c := ReleaseCalls(w, ptr, r);
      CallKeepsByte(w, p, r, q, c, e, a);
      ReleaseKeepsLive(w.memory, p, b, ptr, c, e);
    case Write(d, v) =>
      var p := WriteDid(w, d, v, r);
      var p0 := CurrentHeap(w);
      LiveInPages(w.memory, p0, b, e, a);
      DidOwns(w.memory, p, r.memory, Image(w.memory, t, p)[d := v], p0, b);
      WrittenByte(w, v, r, p, d, a);
    case _ =>
      MoveSame(w, step, r);
      SameViewByte(w.memory, r.memory, t, a);
  }

  lemma DidOwns(s: Memory, p: nat, r: Memory, mem: seq<int>, p0: nat, b: seq<Block>)
    requires Did(s, p, r, p, mem) && HeapStored(s, p0, b)
    ensures p == p0
  {
    hide Addressable, Stores, Image, OwnedBy, Tiles, OnlyLastFree, OthersSame, PlacesKept;
    DidParts(s, p, r, p, mem);
    ReadySized(s, p);
    OwnsIs(s, p);
    OwnsIs(s, p0);
    OwnsOnce(s, s.current, p, p0);
  }

  lemma SameViewByte(s: Memory, r: Memory, t: int, a: int)
    requires Tagged(s) && Tagged(r) && View(r) == View(s)
    ensures ByteAt(r, t, a) == ByteAt(s, t, a)
  {
    hide View, Tagged;
  }

  /** Any step of any thread. */
  lemma StepKeepsByte(w: World, step: SharedHeaps.Step, r: World, t: int, e: Block, a: int, v: int)
    requires WorldOk(w) && StepsTo(w, step, r) && InPayload(e, a)
    requires Holds(w, t, e) && Reads(w, t, a, v) && !GivesBack(w, step, t, e)
    ensures Holds(r, t, e) && Reads(r, t, a, After(w, step, t, a, v))
  {
    hide WorldOk, StepsTo, View, Live, Tagged, InPayload, ByteAt, Spares, GivesBack;
    if t == w.memory.current {
      OwnStepKeepsByte(w, step, r, e, a);
    } else {
      StepSpares(w, step, r);
      SparedByte(w, r, t, a);
    }
  }

  // ---------------------------------------------------------------- what runs do to a payload

  /** What thread t's byte a holds after the run, if it held v before: what t stored there last, if anything. */
  function LastStored(ws: seq<World>, steps: seq<SharedHeaps.Step>, t: int, a: int, v: int): int
    requires |ws| == |steps| + 1
    decreases |steps|
  {
    if steps == [] then v
    else
      var n := |steps| - 1;
      After(ws[n], steps[n], t, a, LastStored(ws[..n + 1], steps[..n], t, a, v))
  }

  ghost predicate NeverFrees(ws: seq<World>, steps: seq<SharedHeaps.Step>, t: int, e: Block)
    requires |ws| == |steps| + 1
  {
    forall i :: 0 <= i < |steps| ==> !GivesBack(ws[i], steps[i], t, e)
  }

  lemma IsRunFront(ws: seq<World>, steps: seq<SharedHeaps.Step>, t: int, e: Block)
    requires IsRun(ws, steps) && steps != [] && NeverFrees(ws, steps, t, e)
    ensures
      var n := |steps| - 1;
      && IsRun(ws[..n + 1], steps[..n]) && NeverFrees(ws[..n + 1], steps[..n], t, e)
      && StepsTo(ws[n], steps[n], ws[n + 1]) && !GivesBack(ws[n], steps[n], t, e)
  {
    hide StepsTo, GivesBack;
  }

  /**
   * Over any interleaving of any threads, a block that was handed out stays handed out until its
   * own thread frees it, and until then each of its bytes holds what that thread stored there
   * last, whatever the others do and wherever the page is moved.
   */
  lemma {:induction false} PayloadHoldsLastStore(ws: seq<World>, steps: seq<SharedHeaps.Step>, t: int, e: Block,
                                                 a: int, v: int)
    requires IsRun(ws, steps) && WorldOk(ws[0]) && InPayload(e, a) && NeverFrees(ws, steps, t, e)
    requires Holds(ws[0], t, e) && Reads(ws[0], t, a, v)
    ensures Holds(ws[|steps|], t, e) && Reads(ws[|steps|], t, a, LastStored(ws, steps, t, a, v))
    decreases |steps|
  {
    hide WorldOk, StepsTo, IsRun, NeverFrees, Holds, Reads, InPayload, GivesBack;
    RunLength(ws, steps);
    if steps != [] {
      var n := |steps| - 1;
      IsRunFront(ws, steps, t, e);
      PayloadHoldsLastStore(ws[..n + 1], steps[..n], t, e, a, v);
      RunKeepsWorld(ws, steps, n);
      StepKeepsByte(ws[n], steps[n], ws[n + 1], t, e, a, LastStored(ws[..n + 1], steps[..n], t, a, v));
    }
  }

  lemma RunLength(ws: seq<World>, steps: seq<SharedHeaps.Step>)
    requires IsRun(ws, steps)
    ensures |ws| == |steps| + 1
  {
  }

  /** Every byte of a block of the running thread is reached at its address, with at most one fault. */
  lemma LiveBytesReached(w: World, e: Block, a: int)
    requires WorldOk(w) && Holds(w, w.memory.current, e) && InPayload(e, a)
    ensures
      var r, n := Touch(w.memory, a / PAGE_SIZE), a / PAGE_SIZE;
      && InPlace(r, n) && 0 <= n && FIRST_USER_PAGE + n < FIRST_SWAP_PAGE && r.open[FIRST_USER_PAGE + n]
      && Tagged(w.memory)
      && r.pages[FIRST_USER_PAGE + n][a % PAGE_SIZE] == ByteAt(w.memory, w.memory.current, a)
  {
    hide WorldOk, Live, InPayload, Touch, HeapStored, Tagged, ByteAt, InPlace, Ready;
    var s, b := w.memory, HeapOf(w, w.memory.current);
    var p := CurrentHeap(w);
    LiveInPages(s, p, b, e, a);
    StoredReady(s, p, b);
    ByteReached(s, p, a);
  }

  lemma ByteReached(s: Memory, p: nat, a: int)
    requires Ready(s, p) && 0 <= a < p * PAGE_SIZE
    ensures
      var r, n := Touch(s, a / PAGE_SIZE), a / PAGE_SIZE;
      && InPlace(r, n) && 0 <= n && FIRST_USER_PAGE + n < FIRST_SWAP_PAGE && r.open[FIRST_USER_PAGE + n]
      && Tagged(s) && r.pages[FIRST_USER_PAGE + n][a % PAGE_SIZE] == ByteAt(s, s.current, a)
  {
    hide Touch, Image, View, Tagged, Addressable, ByteAt, Did, Settled, InPlace;
    ReadyParts(s, p);
    LoadReads(s, p, a);
    OwnsByte(s, p, a);
    TouchReaches(s, a / PAGE_SIZE);
  }

  lemma ReadyParts(s: Memory, p: nat)
    requires Ready(s, p)
    ensures Addressable(s) && Sized(s) && Tagged(s)
  {
  }
}
