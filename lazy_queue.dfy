/**
 * A FIFO queue kept as two queues: `enqueue` appends to the lazy queue, and
 * the front queue is refilled from the lazy one only when it runs empty.
 */
module LazyQueue {
  import opened Wrappers

  class LazyQueue<T> {
    /** The front queue, served first. */
    var front: seq<T>
    /** The lazy queue, where new items wait. */
    var lazy: seq<T>

    /** The items in the order they will be dequeued. */
    function Contents(): seq<T>
      reads this
    {
      front + lazy
    }

    constructor()
      ensures Contents() == []
    {
      front, lazy := [], [];
    }

    /** enqueue(item): the item joins the back. */
    method Enqueue(item: T)
      modifies this
      ensures Contents() == old(Contents()) + [item]
      ensures front == old(front) && lazy == old(lazy) + [item]
    {
      lazy := lazy + [item];
    }

    /** drainLazyQueue(): moves every waiting item, in order, to the back of the front queue. */
    method Drain()
      modifies this
      ensures lazy == [] && front == old(front) + old(lazy)
      ensures Contents() == old(Contents())
    {
      while lazy != []
        invariant front + lazy == old(front) + old(lazy)
        decreases |lazy|
      {
        front := front + [lazy[0]];
        lazy := lazy[1..];
      }
    }

    /** dequeue(): the oldest item, removed; None (null) when the queue is empty. */
    method Dequeue() returns (r: Option<T>)
      modifies this
      ensures old(Contents()) == [] ==> r == None && Contents() == []
      ensures old(Contents()) != [] ==> r == Some(old(Contents())[0]) && Contents() == old(Contents())[1..]
    {
      if front == [] {
        Drain();
      }
      if front == [] {
        r := None;
      } else {
        r := Some(front[0]);
        front := front[1..];
      }
    }

    /** peek(): what dequeue would return; the items stay (though they may move to the front queue). */
    method Peek() returns (r: Option<T>)
      modifies this
      ensures Contents() == old(Contents())
      ensures r == if old(Contents()) == [] then None else Some(old(Contents())[0])
    {
      if front == [] {
        Drain();
      }
      r := if front == [] then None else Some(front[0]);
    }

    /** isEmpty(): both queues are empty. */
    function IsEmpty(): (r: bool)
      reads this
      ensures r <==> Contents() == []
    {
      front == [] && lazy == []
    }

    /** size(): the items held in both queues. */
    function Size(): (r: nat)
      reads this
      ensures r == |Contents()|
    {
      |front| + |lazy|
    }
  }
}
