/**
 * The first create makes the caller, which has run as thread 0 so far, thread 1, and does not
 * tell the page manager. What that does to the heap that the caller has by then.
 */
module Adoption {
  import opened PageTable
  import opened PagingMoves
  import opened PagingRuns
  import opened AddressSpace
  import opened BlockList
  import opened Headers
  import opened Allocator
  import opened ThreadSpace
  import opened HeapCalls
  import opened SharedHeaps
  import opened SharedRuns

  function Adopted(s: Memory, id: int): Memory {
    s.(current := id)
  }

  lemma HeadIsOpen(s: Memory)
    requires Addressable(s) && HeadInMemory(s)
    ensures Inv(s) && !NoneOpen(s)
  {
    hide Inv, Layered, PlacedOpen;
    InvUnique(s);
    var y :| FIRST_USER_PAGE <= y < FIRST_SWAP_PAGE && Tags(s.table[y], s.current, 0);
    assert User(y) && s.table[y].inUse && s.open[y];
  }

  lemma NoPagesNoneOpen(s: Memory, p: nat)
    requires Ready(s, p) && (s.current, 0) !in View(s)
    ensures p == 0 && Tagged(s) && NoneOpen(s)
  {
    hide Addressable, View;
    ReadySized(s, p);
    assert (s.current, 0) in View(s) <==> 0 <= 0 < p;
    OwnsIs(s, 0);
    NoFrame(s, s.current);
  }

  /** Isolation survives the new number exactly when the thread has no page yet. */
  lemma AdoptKeepsInvIffEmpty(s: Memory, p: nat, id: int)
    requires Ready(s, p) && !HeadInSwap(s) && id != NO_THREAD && id != s.current
    ensures Tagged(s) && (Inv(Adopted(s, id)) <==> (s.current, 0) !in View(s))
  {
    hide Inv, View, Layered, PlacedOpen, HeadOpen, HeadInSwap, HeadInMemory, NoneOpen;
    ReadySized(s, p);
    AdoptKeepsInvIff(s, id);
    HeadKnownIff(s);
    if (s.current, 0) in View(s) {
      HeadIsOpen(s);
    } else {
      NoPagesNoneOpen(s, p);
    }
  }

  /** And so does everything that the threads rely on. */
  lemma AdoptKeepsWorldIff(w: World, id: int)
    requires WorldOk(w) && Tagged(w.memory) && !HeadInSwap(w.memory)
    requires id != NO_THREAD && id != w.memory.current && OwnedBy(w.memory, id, 0)
    ensures WorldOk(w.(memory := Adopted(w.memory, id))) <==> (w.memory.current, 0) !in View(w.memory)
  {
    hide WorldOk, View, Inv, HeadInSwap, Stores, Image, OnlyLastFree, Tagged;
    var s := w.memory;
    var p := CurrentHeap(w);
    StoredParts(s, p, HeapOf(w, s.current));
    AdoptKeepsInvIffEmpty(s, p, id);
    if (s.current, 0) in View(s) {
      if WorldOk(w.(memory := Adopted(s, id))) {
        WorldInv(w.(memory := Adopted(s, id)));
      }
    } else {
      NoPagesNoneOpen(s, p);
      OwnsIs(s, 0);
      AdoptKeepsWorld(w, id);
    }
  }

  lemma WorldInv(w: World)
    requires WorldOk(w)
    ensures Inv(w.memory)
  {
    hide Inv, ThreadOk, Layered, PlacedOpen, HeadOpen;
  }

  lemma NotFound(s: Memory, id: int)
    requires Tagged(s) && id != NO_THREAD && forall y :: User(y) && s.table[y].inUse ==> s.table[y].tid != id
    ensures FindFrame(s.table, id, 0, FIRST_USER_PAGE, FIRST_SWAP_PAGE) == FIRST_SWAP_PAGE
  {
    forall y | User(y) ensures !Tags(s.table[y], id, 0) {
      assert s.table[y].inUse <==> s.table[y].tid != NO_THREAD;
    }
  }

  /**
   * The next malloc or free finds no first page for the new number. It puts a new one where the
   * old one was, with a header and zeros, and moves the old one away, closed, under the old number.
   */
  lemma AdoptedHeadCovers(s: Memory, id: int)
    requires Tagged(s) && InPlace(s, 0) && id != NO_THREAD && id != s.current && OwnedBy(s, id, 0) && !Full(s)
    ensures
      var (r, found) := GetHead(Adopted(s, id), MALLOC_FLAG);
      var y := FirstFree(s.table, FIRST_USER_PAGE, LAST_SWAP_PAGE);
      && found && r.current == id && FIRST_USER_PAGE < y < LAST_SWAP_PAGE
      && r.table == s.table[y := PageMeta(s.current, 0, true)][FIRST_USER_PAGE := PageMeta(id, 0, true)]
      && r.pages[y] == s.pages[FIRST_USER_PAGE] && !r.open[y]
      && r.pages[FIRST_USER_PAGE] == InitMem(ZeroPage()) && r.open[FIRST_USER_PAGE]
  {
    hide View, OwnedBy;
    var m := Adopted(s, id);
    NoFrame(s, id);
    assert FindFrame(m.table, id, 0, FIRST_USER_PAGE, FIRST_SWAP_PAGE) == FIRST_SWAP_PAGE by {
      NotFound(s, id);
    }
    var x := FIRST_USER_PAGE;
    assert User(x) && s.table[x].inUse && s.table[x] == PageMeta(s.current, 0, true);
  }

  /**
   * What becomes of a block that was handed out before the first create: nothing the new number
   * frees gives it back, and what its pointers reach in the first page is the new page.
   */
  lemma AdoptionLosesBlocks(w: World, id: int, e: Block, a: int, ptr: int)
    requires WorldOk(w) && InPlace(w.memory, 0) && Tagged(w.memory) && !Full(w.memory)
    requires id != NO_THREAD && id != w.memory.current && OwnedBy(w.memory, id, 0)
    requires Holds(w, w.memory.current, e) && InPayload(e, a) && a < PAGE_SIZE
    ensures
      var (r, found) := GetHead(Adopted(w.memory, id), MALLOC_FLAG);
      && found && Touch(r, 0) == r && InPlace(r, 0) && 0 <= a
      && r.pages[FIRST_USER_PAGE][a] == 0
      && HeapOf(w, id) == [] && Deallocate(FirstBlock(), ptr) == FirstBlock()
  {
    hide WorldOk, View, Full, Live, InPayload, OwnedBy, Stores, OnlyLastFree, Image, Tagged, GetHead, Ready, Tiles,
      InitMem, Deallocate, FirstFree;
    var s := w.memory;
    AdoptedHeadCovers(s, id);
    var p := CurrentHeap(w);
    StoredParts(s, p, HeapOf(w, s.current));
    LivePastHeader(HeapOf(w, s.current), p, e, a);
    NewPageIsZero(a);
    HeapIsEmpty(w, id);
    FirstBlockIsFree(ptr);
  }

  lemma NewPageIsZero(a: int)
    requires META <= a < PAGE_SIZE
    ensures InitMem(ZeroPage())[a] == 0
  {
  }

  lemma FirstBlockIsFree(ptr: int)
    ensures Deallocate(FirstBlock(), ptr) == FirstBlock()
  {
    DeallocateCases(FirstBlock(), ptr, Locate(FirstBlock(), ptr - META));
  }

  lemma LivePastHeader(b: seq<Block>, p: nat, e: Block, a: int)
    requires Tiles(b, p) && e in Live(b) && InPayload(e, a)
    ensures a >= META
  {
    var i :| 0 <= i < |b| && b[i] == e;
    TiledIsInside(b, p, i);
  }

  lemma HeapIsEmpty(w: World, id: int)
    requires WorldOk(w) && Tagged(w.memory) && id != NO_THREAD && OwnedBy(w.memory, id, 0)
    ensures HeapOf(w, id) == []
  {
    hide Addressable, Stores, Image, OnlyLastFree, OwnedBy;
    assert ThreadOk(w, id);
    var p: nat :| ThreadStored(w, id, p);
    OwnsOnce(w.memory, id, p, 0);
    if HeapOf(w, id) != [] {
      TiledIsInside(HeapOf(w, id), p, 0);
    }
  }
}
