/**
 The list on the heap: how it is built before any thread is started, and what one pass of
 each kind of thread does to it when it is alone.
 */
module ListStorage {
  import opened Wrappers
  import Protocol = ListProtocol

  const MAX_STRING_LENGTH: nat := 100

  /** strncpy into the node's array, whose last place is overwritten with the terminator. */
  function Stored(value: string): string {
    if |value| < MAX_STRING_LENGTH then value else value[..MAX_STRING_LENGTH - 1]
  }

  class Node {
    var value: string
    var next: Node?

    constructor (value: string, next: Node?)
      ensures this.value == value && this.next == next
    {
      this.value, this.next := value, next;
    }
  }

  /** What generateValuesInStorage puts in: each value is put in front of the ones before. */
  function Reversed(values: seq<string>): (r: seq<string>)
    ensures |r| == |values|
  {
    if values == [] then [] else Reversed(values[1..]) + [Stored(values[0])]
  }

  lemma {:induction false} ReversedSnoc(values: seq<string>, v: string)
    ensures Reversed(values + [v]) == [Stored(v)] + Reversed(values)
    decreases |values|
  {
    if values != [] {
      assert (values + [v])[1..] == values[1..] + [v];
      ReversedSnoc(values[1..], v);
    }
  }

  /** How many neighbours satisfy the comparison. */
  ghost function PairsUpTo(values: seq<string>, compare: (string, string) -> bool, k: nat): (n: nat)
    requires k < |values| || (k == 0 == |values|)
    ensures n <= k
  {
    if k == 0 then 0
    else PairsUpTo(values, compare, k - 1) + if compare(values[k - 1], values[k]) then 1 else 0
  }

  class Storage {
    var first: Node?
    const capacity: nat
    ghost var nodes: seq<Node>

    ghost predicate Valid()
      reads this, nodes
    {
      && (forall i, j :: 0 <= i < j < |nodes| ==> nodes[i] != nodes[j])
      && first == (if nodes == [] then null else nodes[0])
      && forall i {:trigger nodes[i]} :: 0 <= i < |nodes| ==>
           nodes[i].next == if i + 1 < |nodes| then nodes[i + 1] else null
    }

    ghost function Values(): (vs: seq<string>)
      reads this, nodes
      ensures |vs| == |nodes|
    {
      seq(|nodes|, i requires 0 <= i < |nodes| reads this, nodes => nodes[i].value)
    }

    /** createStorage. */
    constructor (capacity: nat)
      ensures Valid() && nodes == [] && this.capacity == capacity
    {
      this.capacity := capacity;
      this.first := null;
      this.nodes := [];
    }

    method AppendNewNode(value: string)
      requires Valid()
      modifies this
      ensures Valid() && |nodes| == |old(nodes)| + 1 && nodes[1..] == old(nodes) && fresh(nodes[0])
      ensures Values() == [Stored(value)] + old(Values())
    {
      var node := new Node(Stored(value), first);
      first := node;
      nodes := [node] + nodes;
      assert nodes[1..] == old(nodes);
      assert Valid() by {
        assert forall i :: 0 < i < |nodes| ==> nodes[i] == nodes[1..][i - 1];
      }
      assert Values() == [Stored(value)] + old(Values()) by {
        assert forall i :: 0 < i < |nodes| ==> nodes[i] == nodes[1..][i - 1];
      }
    }

    /** The random strings are given as values, one for each round of the loop. */
    method GenerateValues(values: seq<string>)
      requires Valid() && nodes == [] && |values| == capacity
      modifies this
      ensures Valid() && Values() == Reversed(values) && fresh(nodes)
    {
      var i := 0;
      assert values[..0] == [];
      while i < capacity
        invariant 0 <= i <= capacity
        invariant Valid() && Values() == Reversed(values[..i]) && fresh(nodes)
      {
        AppendNewNode(values[i]);
        ReversedSnoc(values[..i], values[i]);
        assert values[..i + 1] == values[..i] + [values[i]];
        assert forall n :: n in nodes ==> n == nodes[0] || n in nodes[1..];
        i := i + 1;
      }
      assert values[..i] == values;
    }

    /** The three writes of a swap: the two nodes behind curr1 change places, in the list as in the protocol. */
    method SwapBehind(curr1: Node, ghost i: nat)
      requires Valid() && i + 2 < |nodes| && nodes[i] == curr1
      modifies this, nodes
      ensures Valid() && nodes == Protocol.Swapped(old(nodes), i)
      ensures forall n :: n in nodes ==> n.value == old(n.value)
    {
      var curr2 := curr1.next;
      var curr3 := curr2.next;
      assert curr2 == nodes[i + 1] && curr3 == nodes[i + 2];
      curr2.next := curr3.next;
      curr3.next := curr2;
      curr1.next := curr3;
      ghost var was := nodes;
      nodes := Protocol.Swapped(nodes, i);
      assert forall k :: 0 <= k < |nodes| && k != i + 1 && k != i + 2 ==> nodes[k] == was[k];
    }

    /** One pass of countPairsWithCompare counts the neighbours that satisfy the comparison. */
    method CountPass(compare: (string, string) -> bool) returns (count: nat)
      requires Valid()
      ensures count == PairsUpTo(Values(), compare, if nodes == [] then 0 else |nodes| - 1)
    {
      count := 0;
      var curr := first;
      ghost var k := 0;
      while curr != null
        invariant k <= |nodes|
        invariant curr == if k < |nodes| then nodes[k] else null
        invariant count == PairsUpTo(Values(), compare, if k < |nodes| || k == 0 then k else k - 1)
        decreases |nodes| - k
      {
        if curr.next != null && compare(curr.value, curr.next.value) {
          count := count + 1;
        }
        curr, k := curr.next, k + 1;
      }
    }
  }

  function Numbers(n: nat): (ns: seq<nat>)
    ensures |ns| == n && forall i :: 0 <= i < n ==> ns[i] == i
    ensures forall v: nat :: v in ns <==> v < n
  {
    if n == 0 then [] else Numbers(n - 1) + [n - 1]
  }

  /** A list of n nodes, numbered from the front, as a protocol state. */
  function Numbered(n: nat, mutexes: bool, threads: map<Protocol.Tid, Protocol.Thread>): Protocol.State {
    var chain := Numbers(n);
    Protocol.State(
      mutexes,
      if n == 0 then None else Some(0),
      map i: Protocol.Node | i in chain :: if i + 1 < n then Some(i + 1) else None,
      map i: Protocol.Node | i in chain :: Protocol.Lock({}, None),
      threads,
      chain)
  }

  lemma NumbersDistinct(n: nat)
    ensures Protocol.NoDup(Numbers(n))
  {
    var chain := Numbers(n);
    forall i | 0 <= i < |chain|
      ensures Protocol.IndexOf(chain, chain[i]) == i
    {
      assert chain[Protocol.IndexOf(chain, i)] == i;
    }
  }

  lemma NumbersFollow(n: nat, v: nat)
    requires v < n
    ensures v in Numbers(n) && Protocol.Succ(Numbers(n), v) == if v + 1 < n then Some(v + 1) else None
  {
    var chain := Numbers(n);
    assert chain[Protocol.IndexOf(chain, v)] == v;
  }

  ghost predicate AtStart(threads: map<Protocol.Tid, Protocol.Thread>) {
    forall t :: t in threads ==>
      threads[t] in {Protocol.Thread(Protocol.CEnter, [], None), Protocol.Thread(Protocol.SEnter, [], None)}
  }

  lemma NumberedIsInitial(n: nat, mutexes: bool, threads: map<Protocol.Tid, Protocol.Thread>)
    requires AtStart(threads)
    ensures Protocol.Init(Numbered(n, mutexes, threads))
  {
    NumberedShape(n, mutexes, threads);
    NumberedLinks(n, mutexes, threads);
  }

  lemma NumberedLinks(n: nat, mutexes: bool, threads: map<Protocol.Tid, Protocol.Thread>)
    ensures var s := Numbered(n, mutexes, threads);
            forall v :: v in s.chain ==> v in s.next && s.next[v] == Protocol.Succ(s.chain, v)
  {
    var s := Numbered(n, mutexes, threads);
    forall v | v in s.chain
      ensures v in s.next && s.next[v] == Protocol.Succ(s.chain, v)
    {
      NumbersFollow(n, v);
    }
  }

  lemma NumberedShape(n: nat, mutexes: bool, threads: map<Protocol.Tid, Protocol.Thread>)
    ensures Protocol.Shape(Numbered(n, mutexes, threads))
  {
    NumbersDistinct(n);
  }

  /** The nodes of the storage are linked as their numbers are. */
  ghost predicate LinkedAlike(storage: Storage, s: Protocol.State)
    reads storage, storage.nodes
  {
    && |s.chain| == |storage.nodes|
    && forall i: nat {:trigger Protocol.Link(s, i)} :: i < |storage.nodes| ==>
         match Protocol.Link(s, i)
         case None => storage.nodes[i].next == null
         case Some(k) => k < |storage.nodes| && storage.nodes[i].next == storage.nodes[k]
  }

  /** A list that has been built is one the threads may be started on. */
  lemma BuiltListIsInitial(storage: Storage, mutexes: bool, threads: map<Protocol.Tid, Protocol.Thread>)
    requires storage.Valid() && AtStart(threads)
    ensures var s := Numbered(|storage.nodes|, mutexes, threads); Protocol.Init(s) && LinkedAlike(storage, s)
  {
    NumberedIsInitial(|storage.nodes|, mutexes, threads);
    NumberedAlike(storage, mutexes, threads);
  }

  lemma NumberedAlike(storage: Storage, mutexes: bool, threads: map<Protocol.Tid, Protocol.Thread>)
    requires storage.Valid()
    ensures LinkedAlike(storage, Numbered(|storage.nodes|, mutexes, threads))
  {
    var s := Numbered(|storage.nodes|, mutexes, threads);
    assert forall i: nat :: i < |storage.nodes| ==> i in s.next;
  }
}
