/**
 The bounded queue itself: a chain of nodes between first and last, a count, and statistics.
 The list code is the same in the mutex, semaphore and condition-variable versions; the
 values it goes through are given by QueueValue, which the protocols build on.
 */
module QueueValue {
  import opened Wrappers

  /** What the queue holds, and its counters. */
  datatype Queue = Queue(
    items: seq<int>,
    maxCount: nat,
    addAttempts: nat,
    getAttempts: nat,
    addCount: nat,
    getCount: nat)

  function Empty(maxCount: nat): Queue {
    Queue([], maxCount, 0, 0, 0, 0)
  }

  function Put(q: Queue, val: int): Queue {
    q.(items := q.items + [val], addCount := q.addCount + 1)
  }

  function Take(q: Queue): Queue
    requires q.items != []
  {
    q.(items := q.items[1..], getCount := q.getCount + 1)
  }

  /** queueAdd between lock and unlock: refused when full. */
  function Add(q: Queue, val: int): (Queue, bool) {
    var tried := q.(addAttempts := q.addAttempts + 1);
    if |q.items| == q.maxCount then (tried, false) else (Put(tried, val), true)
  }

  /** queueGet between lock and unlock: refused when empty. */
  function Get(q: Queue): (Queue, Option<int>) {
    var tried := q.(getAttempts := q.getAttempts + 1);
    if q.items == [] then (tried, None) else (Take(tried), Some(q.items[0]))
  }
}

module QueueFifo {
  import opened Wrappers
  import opened QueueValue

  class QueueNode {
    var val: int
    var next: QueueNode?

    constructor (val: int)
      ensures this.val == val && next == null
    {
      this.val := val;
      this.next := null;
    }
  }

  class LinkedQueue {
    var first: QueueNode?
    var last: QueueNode?
    var count: nat
    const maxCount: nat
    var addAttempts: nat
    var getAttempts: nat
    var addCount: nat
    var getCount: nat
    ghost var nodes: seq<QueueNode>

    /** last is the final node while there is one; it is stale in an empty queue. */
    ghost predicate Valid()
      reads this, nodes
    {
      && (forall i, j :: 0 <= i < j < |nodes| ==> nodes[i] != nodes[j])
      && first == (if nodes == [] then null else nodes[0])
      && (nodes != [] ==> last == nodes[|nodes| - 1])
      && (forall i {:trigger nodes[i]} :: 0 <= i < |nodes| ==>
            nodes[i].next == if i + 1 < |nodes| then nodes[i + 1] else null)
      && count == |nodes| <= maxCount
    }

    ghost function Items(): (items: seq<int>)
      reads this, nodes
      ensures |items| == |nodes|
    {
      seq(|nodes|, i requires 0 <= i < |nodes| reads this, nodes => nodes[i].val)
    }

    ghost function Value(): Queue
      reads this, nodes
    {
      Queue(Items(), maxCount, addAttempts, getAttempts, addCount, getCount)
    }

    constructor (maxCount: nat)
      ensures Valid() && nodes == [] && Value() == Empty(maxCount)
    {
      this.maxCount := maxCount;
      first, last, count := null, null, 0;
      addAttempts, getAttempts, addCount, getCount := 0, 0, 0, 0;
      nodes := [];
      new;
      assert Items() == [];
    }

    /** A new last node. */
    method Append(val: int)
      requires Valid() && count < maxCount
      modifies this, nodes
      ensures Valid() && Value() == Put(old(Value()), val)
      ensures |nodes| == |old(nodes)| + 1 && nodes[..|old(nodes)|] == old(nodes) && fresh(nodes[|old(nodes)|])
    {
      var node := new QueueNode(val);
      if first == null {
        first := node;
        last := node;
      } else {
        last.next := node;
        last := last.next;
      }
      count := count + 1;
      addCount := addCount + 1;
      nodes := nodes + [node];
      assert Items() == old(Items()) + [val];
    }

    /** The first node is taken out; its successor, if any, is the new first. */
    method RemoveFirst() returns (val: int)
      requires Valid() && count > 0
      modifies this
      ensures Valid() && old(Value()).items != []
      ensures val == old(Value()).items[0] && Value() == Take(old(Value()))
      ensures nodes == old(nodes)[1..]
    {
      var tmp := first;
      val := tmp.val;
      first := first.next;
      count := count - 1;
      getCount := getCount + 1;
      nodes := nodes[1..];
      assert Items() == old(Items())[1..];
    }

    /** An add succeeds exactly when there is room. */
    method QueueAdd(val: int) returns (ok: bool)
      requires Valid()
      modifies this, nodes
      ensures ok <==> |old(Items())| < maxCount
      ensures Items() == old(Items()) + if ok then [val] else []
      ensures addAttempts == old(addAttempts) + 1 && addCount == old(addCount) + if ok then 1 else 0
      ensures getAttempts == old(getAttempts) && getCount == old(getCount)
      ensures Valid() && (Value(), ok) == Add(old(Value()), val)
      ensures if ok
              then |nodes| == |old(nodes)| + 1 && nodes[..|old(nodes)|] == old(nodes) && fresh(nodes[|old(nodes)|])
              else nodes == old(nodes)
    {
      ghost var was := Value();
      addAttempts := addAttempts + 1;
      assert Value() == was.(addAttempts := was.addAttempts + 1);
      assert was.items + [] == was.items;
      if count == maxCount {
        return false;
      }
      Append(val);
      return true;
    }

    /** A get fails exactly when there is nothing. */
    method QueueGet() returns (val: Option<int>)
      requires Valid()
      modifies this
      ensures val == None <==> old(Items()) == []
      ensures val.Some? ==> old(Items()) == [val.value] + Items()
      ensures val == None ==> Items() == old(Items())
      ensures getAttempts == old(getAttempts) + 1 && getCount == old(getCount) + if val.Some? then 1 else 0
      ensures addAttempts == old(addAttempts) && addCount == old(addCount)
      ensures Valid() && (Value(), val) == Get(old(Value()))
      ensures nodes == old(nodes) || (old(nodes) != [] && nodes == old(nodes)[1..])
    {
      ghost var was := Value();
      getAttempts := getAttempts + 1;
      assert Value() == was.(getAttempts := was.getAttempts + 1);
      if count == 0 {
        return None;
      }
      var v := RemoveFirst();
      return Some(v);
    }
  }
}
