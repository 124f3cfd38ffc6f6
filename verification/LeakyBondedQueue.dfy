/** LeakyBondedQueue: a queue of fixed capacity that drops its oldest item when full. */
module LeakyBondedQueue {
  import opened Options

  /** The last `n` items of a list, or all of them. */
  function LastN<T>(s: seq<T>, n: nat): (r: seq<T>)
    ensures |r| == if |s| <= n then |s| else n
    ensures forall i :: 0 <= i < |r| ==> r[i] == s[|s| - |r| + i]
  {
    if |s| <= n then s else s[|s| - n..]
  }

  /** Enqueueing into what was kept keeps the same as if nothing had ever been dropped. */
  lemma LastNAppend<T>(s: seq<T>, x: T, n: nat)
    requires 0 < n
    ensures LastN(LastN(s, n) + [x], n) == LastN(s + [x], n)
  {
    assert |LastN(LastN(s, n) + [x], n)| == |LastN(s + [x], n)|;
  }

  class LeakyBondedQueue<T> {
    const capacity: nat
    var queue: seq<T>

    ghost predicate Valid()
      reads this
    {
      0 < capacity && |queue| <= capacity
    }

    constructor (capacity: nat)
      requires 0 < capacity
      ensures Valid() && queue == [] && this.capacity == capacity
    {
      this.capacity := capacity;
      queue := [];
    }

    method Enqueue(item: T)
      requires Valid()
      modifies this
      ensures Valid() && queue == LastN(old(queue) + [item], capacity)
    {
      if |queue| + 1 > capacity {
        queue := queue[1..];
      }
      queue := queue + [item];
    }

    method EnqueueWithPop(item: T) returns (popped: Option<T>)
      requires Valid()
      modifies this
      ensures Valid() && queue == LastN(old(queue) + [item], capacity)
      ensures popped == if |old(queue)| == capacity then Some(old(queue)[0]) else None
    {
      popped := None;
      if |queue| + 1 > capacity {
        popped := Some(queue[0]);
        queue := queue[1..];
      }
      queue := queue + [item];
    }

    /** Taking from an empty queue is undefined in the source, whatever its comment says. */
    method Dequeue() returns (item: T)
      requires Valid() && queue != []
      modifies this
      ensures Valid() && old(queue) == [item] + queue
    {
      item := queue[0];
      queue := queue[1..];
    }

    method Empty() returns (empty: bool)
      ensures empty <==> queue == []
    {
      empty := |queue| == 0;
    }

    method Clear()
      requires Valid()
      modifies this
      ensures Valid() && queue == []
    {
      while queue != []
        invariant |queue| <= capacity
        decreases |queue|
      {
        queue := queue[1..];
      }
    }
  }
}
