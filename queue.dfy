/** The general first-in first-out queue: elements live in a map keyed by
    consecutive integers, between a head index and a tail index. */
module DataStructures {
  import opened Wrappers

  /** The values stored at keys `lo` to `hi - 1`, in key order. */
  ghost function Window<T>(elements: map<int, T>, lo: int, hi: int): (s: seq<T>)
    requires forall k :: lo <= k < hi ==> k in elements
    ensures |s| == if lo <= hi then hi - lo else 0
    ensures forall i :: 0 <= i < |s| ==> s[i] == elements[lo + i]
  {
    if lo < hi then seq(hi - lo, i requires 0 <= i < hi - lo => elements[lo + i]) else []
  }

  class Queue<T> {
    var Elements: map<int, T>
    var Head: int
    var Tail: int

    /** Every key from the head up to the tail holds an element, and no key at or
        past the tail does. Dequeuing an empty queue moves the head past the
        tail, as the source's does; such a queue reports a negative length. */
    ghost predicate Valid()
      reads this
    {
      (forall k :: Head <= k < Tail ==> k in Elements) &&
      (forall k :: k in Elements ==> k < Tail)
    }

    /** The keys are exactly head to tail - 1: true of every queue that has never
        been dequeued while empty. */
    ghost predicate Exact()
      reads this
    {
      Head <= Tail && forall k :: k in Elements <==> Head <= k < Tail
    }

    /** The queued elements, oldest first. */
    ghost function Contents(): seq<T>
      reads this
      requires Valid()
    {
      Window(Elements, Head, Tail)
    }

    constructor ()
      ensures Valid() && Exact() && Contents() == [] && Length() == 0
    {
      Elements := map[];
      Head := 0;
      Tail := 0;
    }

    /** `Length`: tail minus head; the number of queued elements unless the queue
        was dequeued while empty. */
    function Length(): (n: int)
      reads this
      requires Valid()
      ensures n >= 0 ==> n == |Contents()|
      ensures n < 0 ==> Contents() == []
    {
      Tail - Head
    }

    /** `IsEmpty`: the length is exactly zero. */
    predicate IsEmpty()
      reads this
      requires Valid()
      ensures IsEmpty() <==> Length() == 0
      ensures IsEmpty() ==> Contents() == []
    {
      Length() == 0
    }

    /** `Peek`: the oldest element, or nothing (`undefined`) when there is none. */
    function Peek(): (r: Option<T>)
      reads this
      requires Valid()
      ensures Length() > 0 ==> r == Some(Contents()[0])
      ensures Length() <= 0 ==> r == None
    {
      if Head in Elements then Some(Elements[Head]) else None
    }

    /** `Enqueue`: stores the element at the tail key and advances the tail. */
    method Enqueue(element: T)
      requires Valid()
      modifies this
      ensures Valid()
      ensures Head == old(Head) && Tail == old(Tail) + 1 && Length() == old(Length()) + 1
      ensures old(Length()) >= 0 ==> Contents() == old(Contents()) + [element]
      ensures old(Exact()) ==> Exact()
    {
      Elements := Elements[Tail := element];
      Tail := Tail + 1;
    }

    /** `EnqueueList`: enqueues the elements in order. */
    method EnqueueList(listOfElements: seq<T>)
      requires Valid()
      modifies this
      ensures Valid()
      ensures Head == old(Head) && Tail == old(Tail) + |listOfElements|
      ensures old(Length()) >= 0 ==> Contents() == old(Contents()) + listOfElements
      ensures old(Exact()) ==> Exact()
    {
      var i := 0;
      while i < |listOfElements|
        invariant 0 <= i <= |listOfElements|
        invariant Valid()
        invariant Head == old(Head) && Tail == old(Tail) + i
        invariant old(Length()) >= 0 ==> Length() >= 0 && Contents() == old(Contents()) + listOfElements[..i]
        invariant old(Exact()) ==> Exact()
      {
        Enqueue(listOfElements[i]);
        assert listOfElements[..i + 1] == listOfElements[..i] + [listOfElements[i]];
        i := i + 1;
      }
      assert listOfElements[..i] == listOfElements;
    }

    /** `Dequeue`: removes and returns the oldest element. On an empty queue the
        source returns `undefined` and still advances the head. */
    method Dequeue() returns (item: Option<T>)
      requires Valid()
      modifies this
      ensures Valid()
      ensures Head == old(Head) + 1 && Tail == old(Tail) && Length() == old(Length()) - 1
      ensures old(Length()) > 0 ==> item == Some(old(Contents())[0]) && Contents() == old(Contents())[1..]
      ensures old(Length()) <= 0 ==> item == None && Contents() == []
      ensures old(Exact()) && old(Length()) > 0 ==> Exact()
    {
      item := if Head in Elements then Some(Elements[Head]) else None;
      Elements := Elements - {Head};
      Head := Head + 1;
    }

    /** `DequeueChunk`: dequeues up to `size` elements, stopping early once the queue is empty. */
    method DequeueChunk(size: int) returns (elements: seq<T>)
      requires Valid() && Length() >= 0
      modifies this
      ensures Valid() && Length() >= 0
      ensures var n := if size <= 0 then 0 else if size < old(Length()) then size else old(Length());
        elements == old(Contents())[..n] && Contents() == old(Contents())[n..]
      ensures old(Exact()) ==> Exact()
    {
      elements := [];
      var i := 0;
      while i < size
        invariant Valid() && Length() >= 0
        invariant 0 <= i && (size > 0 ==> i <= size) && (size <= 0 ==> i == 0)
        invariant i <= old(Length()) && Length() == old(Length()) - i
        invariant elements == old(Contents())[..i] && Contents() == old(Contents())[i..]
        invariant old(Exact()) ==> Exact()
      {
        if IsEmpty() {
          assert i == old(Length()) && old(Contents())[..i] == old(Contents());
          return;
        }
        var item := Dequeue();
        elements := elements + [item.value];
        i := i + 1;
      }
    }
  }
}
