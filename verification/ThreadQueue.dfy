/** The thread control block and the linked FIFO queue of my_pthread_t.h and my_pthread.c. */
module ThreadQueue {
  import opened RunQueues
  import opened SchedulerSpec

  class Thread {
    var next: Thread?
    var priority: int
    var state: ThreadState
    var retval: int
    var timeRun: int
    var timeStart: int
    var timeEnd: int
    var timeLife: int

    /** Everything but the link. */
    ghost function Block(): Tcb
      reads this`priority, this`state, this`retval, this`timeRun, this`timeStart, this`timeEnd, this`timeLife
    {
      Tcb(priority, state, retval, timeRun, timeStart, timeEnd, timeLife)
    }

    constructor (now: int)
      ensures next == null && Block() == Tcb(0, Queued, 0, 0, 0, 0, now)
    {
      next := null;
      priority := 0;
      state := Queued;
      retval := 0;
      timeRun, timeStart, timeEnd, timeLife := 0, 0, 0, now;
    }
  }

  class Queue {
    var front: Thread?
    var rear: Thread?
    ghost var items: seq<Thread>

    ghost predicate Valid()
      reads this, (set u | u in items)`next
    {
      && Distinct(items)
      && (items == [] ==> front == null && rear == null)
      && (items != [] ==> front == items[0] && rear == items[|items| - 1] && rear.next == null)
      && forall i, j :: 0 <= i < j < |items| && j == i + 1 ==> items[i].next == items[j]
    }

    constructor ()
      ensures Valid() && items == []
    {
      front, rear, items := null, null, [];
    }

    method Enqueue(t: Thread)
      requires Valid() && t !in items && t.next == null
      modifies this, (set u | u in items)`next
      ensures Valid() && items == old(items) + [t]
    {
      if rear == null {
        front := t;
        rear := t;
      } else {
        rear.next := t;
        rear := t;
      }
      items := items + [t];
    }

    method Dequeue() returns (t: Thread?)
      requires Valid()
      modifies this, (set u | u in items)`next
      ensures Valid()
      ensures old(items) == [] ==> t == null && items == []
      ensures old(items) != [] ==> t == old(items[0]) && items == old(items)[1..] && t.next == null
    {
      if front == null {
        return null;
      }
      var temp := front;
      front := front.next;
      temp.next := null;
      if front == null {
        rear := null;
      }
      items := items[1..];
      t := temp;
    }

    /** The surgery in maintenance: take ptr, the k-th thread, out; prev is the one before it. */
    method Unlink(prev: Thread?, ptr: Thread, ghost k: nat)
      requires Valid() && k < |items| && ptr == items[k] && prev == (if k == 0 then null else items[k - 1])
      modifies this, (set u | u in items)`next
      ensures Valid() && items == old(items)[..k] + old(items)[k + 1..]
      ensures ptr.next == (if k + 1 < |old(items)| then old(items)[k + 1] else null)
      ensures forall u :: u in items ==> u in old(items) && u != ptr
    {
      ghost var was := items;
      assert k + 1 < |was| ==> ptr.next == was[k + 1];
      if ptr == front {
        assert k == 0;
        front := front.next;
        if front == null {
          rear := null;
        }
      } else {
        prev.next := ptr.next;
        if prev.next == null {
          rear := prev;
        }
      }
      items := items[..k] + items[k + 1..];
      assert forall i :: 0 <= i < |items| ==> items[i] == was[if i < k then i else i + 1];
      assert items != [] ==> items[|items| - 1] == was[if k + 1 == |was| then k - 1 else |was| - 1];
    }
  }
}
