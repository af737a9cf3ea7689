/**
 Pair counters and neighbour swappers walking one linked list with a lock in every node, as a
 step relation. A step is one lock operation, one write to a link, or one read of links that
 the thread has locked. `chain` is the list as it is meant, which the links follow except in
 the middle of a swap.
 */
module ListProtocol {
  import opened Wrappers

  type Tid = nat
  type Node = nat

  datatype Lock = Lock(readers: set<Tid>, writer: Option<Tid>)

  /** Program points. */
  datatype Label =
    // countPairsWithCompare
    | CEnter    // the check for two nodes
    | CRestart  // curr = storage->first
    | CTop      // curr tested; if there, to be locked
    | CHold     // curr->next to be tested
    | CWant     // curr->next to be locked
    | CPair     // the pair to be compared
    | CLeave    // locks to be given back, front first
    // countSwapPermutations
    | SEnter    // the check for three nodes
    | STop      // willSwap drawn; curr1 tested, and locked
    | SHold     // curr1->next to be tested
    | SWant     // curr1->next to be locked
    | SHold2    // curr1->next->next to be tested
    | SWant3    // curr1->next->next to be locked
    | SHold3    // curr2->next = curr3->next
    | SWrote1   // curr3->next = curr2
    | SWrote2   // curr1->next = curr3
    | SWrote3   // curr1 = tmp->next, curr2 = curr1->next
    | SLeave    // locks to be given back, front first
    // the same function when it will not swap
    | NHold
    | NWant
    | NLeave    // locks to be given back, back first
    | Stopped

  /** The nodes a thread has locked (curr1, curr2, curr3), front to back, and the pointer it goes on from. */
  datatype Thread = Thread(at: Label, held: seq<Node>, saved: Option<Node>)

  /** mutexes: the build with one mutex a node, where counters lock exclusively too. */
  datatype State = State(
    mutexes: bool,
    first: Option<Node>,
    next: map<Node, Option<Node>>,
    locks: map<Node, Lock>,
    threads: map<Tid, Thread>,
    chain: seq<Node>)

  predicate IsCounter(at: Label) {
    at.CEnter? || at.CRestart? || at.CTop? || at.CHold? || at.CWant? || at.CPair? || at.CLeave?
  }

  predicate Exclusive(s: State, at: Label) {
    s.mutexes || !IsCounter(at)
  }

  // ---- the elementary steps ----

  predicate Free(l: Lock) {
    l.readers == {} && l.writer == None
  }

  predicate CanLock(l: Lock, exclusive: bool) {
    if exclusive then Free(l) else l.writer == None
  }

  function WithLock(l: Lock, t: Tid, exclusive: bool): Lock {
    if exclusive then l.(writer := Some(t)) else l.(readers := l.readers + {t})
  }

  predicate Owns(l: Lock, t: Tid, exclusive: bool) {
    if exclusive then l.writer == Some(t) else t in l.readers
  }

  function WithoutLock(l: Lock, t: Tid, exclusive: bool): Lock {
    if exclusive then l.(writer := None) else l.(readers := l.readers - {t})
  }

  predicate Go(s: State, s': State, t: Tid, th: Thread) {
    s' == s.(threads := s.threads[t := th])
  }

  /** t locks v behind what it holds. */
  predicate Acquire(s: State, s': State, t: Tid, v: Node, at: Label)
    requires t in s.threads
  {
    var th := s.threads[t];
    var x := Exclusive(s, at);
    && v in s.locks && CanLock(s.locks[v], x)
    && s' == s.(locks := s.locks[v := WithLock(s.locks[v], t, x)],
                threads := s.threads[t := Thread(at, th.held + [v], th.saved)])
  }

  /** t unlocks v, which leaves it with held. */
  predicate Release(s: State, s': State, t: Tid, v: Node, held: seq<Node>, at: Label)
    requires t in s.threads
  {
    var x := Exclusive(s, at);
    && v in s.locks && Owns(s.locks[v], t, x)
    && s' == s.(locks := s.locks[v := WithoutLock(s.locks[v], t, x)],
                threads := s.threads[t := Thread(at, held, s.threads[t].saved)])
  }

  predicate ReleaseFront(s: State, s': State, t: Tid, more: Label, done: Label)
    requires t in s.threads
  {
    var held := s.threads[t].held;
    held != [] && Release(s, s', t, held[0], held[1..], if |held| > 1 then more else done)
  }

  predicate ReleaseBack(s: State, s': State, t: Tid, more: Label, done: Label)
    requires t in s.threads
  {
    var held := s.threads[t].held;
    var n := |held| - 1;
    held != [] && Release(s, s', t, held[n], held[..n], if n > 0 then more else done)
  }

  predicate Write(s: State, s': State, t: Tid, v: Node, to: Option<Node>, at: Label, chain: seq<Node>)
    requires t in s.threads
  {
    && v in s.next
    && s' == s.(next := s.next[v := to], threads := s.threads[t := s.threads[t].(at := at)], chain := chain)
  }

  /** The link of v, where there is one. */
  function Link(s: State, v: Node): Option<Node> {
    if v in s.next then s.next[v] else None
  }

  /** Whether the link of the last node locked is not NULL decides where t goes. */
  predicate Test(s: State, s': State, t: Tid, more: Label, last: Thread)
    requires t in s.threads
  {
    var th := s.threads[t];
    th.held != [] && Go(s, s', t, if Link(s, th.held[|th.held| - 1]) != None then th.(at := more) else last)
  }

  /** t locks the node behind the last one it has locked. */
  predicate AcquireNext(s: State, s': State, t: Tid, at: Label)
    requires t in s.threads
  {
    var held := s.threads[t].held;
    && held != [] && Link(s, held[|held| - 1]) != None
    && Acquire(s, s', t, Link(s, held[|held| - 1]).value, at)
  }

  /** chain with the two nodes behind position i exchanged. */
  function Swapped<T>(chain: seq<T>, i: nat): seq<T>
    requires i + 2 < |chain|
  {
    chain[i + 1 := chain[i + 2]][i + 2 := chain[i + 1]]
  }

  ghost function IndexOf(chain: seq<Node>, v: Node): (i: nat)
    requires v in chain
    ensures i < |chain| && chain[i] == v
  {
    var i :| 0 <= i < |chain| && chain[i] == v;
    i
  }

  /** The third write of a swap, which is the one that changes the list. */
  ghost predicate WriteSwap(s: State, s': State, t: Tid)
    requires t in s.threads
  {
    var held := s.threads[t].held;
    && |held| == 3 && held[0] in s.chain && IndexOf(s.chain, held[0]) + 2 < |s.chain|
    && Write(s, s', t, held[0], Some(held[2]), SWrote3, Swapped(s.chain, IndexOf(s.chain, held[0])))
  }

  /** tmp = curr1; curr1 = tmp->next; curr2 = curr1->next. */
  predicate Reread(s: State, s': State, t: Tid)
    requires t in s.threads
  {
    var held := s.threads[t].held;
    && |held| == 3
    && Link(s, held[0]) != None
    && var c := Link(s, held[0]).value;
       Link(s, c) != None && Go(s, s', t, Thread(SLeave, [held[0], c, Link(s, c).value], Some(c)))
  }

  predicate CounterStep(s: State, s': State, t: Tid)
    requires t in s.threads
  {
    var th := s.threads[t];
    match th.at
    case CEnter =>
      Go(s, s', t, th.(at := if s.first == None || Link(s, s.first.value) == None then Stopped else CRestart))
    case CRestart => Go(s, s', t, Thread(CTop, th.held, s.first))
    case CTop =>
      if th.saved == None then Go(s, s', t, th.(at := CRestart)) else Acquire(s, s', t, th.saved.value, CHold)
    case CHold => Test(s, s', t, CWant, Thread(CLeave, th.held, None))
    case CWant => AcquireNext(s, s', t, CPair)
    case CPair => |th.held| == 2 && Go(s, s', t, Thread(CLeave, th.held, Some(th.held[1])))
    case CLeave => ReleaseFront(s, s', t, CLeave, CTop)
    case _ => false
  }

  ghost predicate SwapperStep(s: State, s': State, t: Tid)
    requires t in s.threads
  {
    var th := s.threads[t];
    match th.at
    // the check reads links without a lock: it may stop the thread, or not, if there is a first node
    case SEnter => Go(s, s', t, th.(at := Stopped)) || (s.first != None && Go(s, s', t, Thread(STop, th.held, s.first)))
    case STop =>
      if th.saved == None then Go(s, s', t, th.(at := SEnter))
      else Acquire(s, s', t, th.saved.value, SHold) || Acquire(s, s', t, th.saved.value, NHold)
    case SHold => Test(s, s', t, SWant, Thread(SLeave, th.held, None))
    case SWant => AcquireNext(s, s', t, SHold2)
    case SHold2 => |th.held| == 2 && Test(s, s', t, SWant3, Thread(SLeave, th.held, Some(th.held[1])))
    case SWant3 => AcquireNext(s, s', t, SHold3)
    case SHold3 => |th.held| == 3 && Write(s, s', t, th.held[1], Link(s, th.held[2]), SWrote1, s.chain)
    case SWrote1 => |th.held| == 3 && Write(s, s', t, th.held[2], Some(th.held[1]), SWrote2, s.chain)
    case SWrote2 => WriteSwap(s, s', t)
    case SWrote3 => Reread(s, s', t)
    case SLeave => ReleaseFront(s, s', t, SLeave, STop)
    case NHold => Test(s, s', t, NWant, Thread(NLeave, th.held, th.saved))
    case NWant => AcquireNext(s, s', t, NLeave)
    case NLeave => ReleaseBack(s, s', t, NLeave, STop)
    case _ => false
  }

  /** One step of thread t. */
  ghost predicate Step(s: State, s': State, t: Tid) {
    t in s.threads && (CounterStep(s, s', t) || SwapperStep(s, s', t))
  }

  // ---- the initial states ----

  /** No node occurs twice: the first place of each is its only one. */
  ghost predicate NoDup(chain: seq<Node>) {
    forall i {:trigger IndexOf(chain, chain[i])} :: 0 <= i < |chain| ==> IndexOf(chain, chain[i]) == i
  }

  /** What follows v in the list. */
  ghost function Succ(chain: seq<Node>, v: Node): Option<Node>
    requires v in chain
  {
    var i := IndexOf(chain, v);
    if i + 1 < |chain| then Some(chain[i + 1]) else None
  }

  ghost predicate Shape(s: State) {
    && NoDup(s.chain)
    && s.first == (if s.chain == [] then None else Some(s.chain[0]))
    && (forall v :: v in s.chain <==> v in s.next)
    && (forall v :: v in s.chain <==> v in s.locks)
  }

  /** Any number of threads about to enter either function, on a list as generateValuesInStorage builds it. */
  ghost predicate Init(s: State) {
    && Shape(s)
    && (forall v :: v in s.chain ==> s.next[v] == Succ(s.chain, v))
    && (forall v :: v in s.chain ==> Free(s.locks[v]))
    && (forall t :: t in s.threads ==> s.threads[t] in {Thread(CEnter, [], None), Thread(SEnter, [], None)})
  }

  ghost predicate Next(s: State, s': State) {
    exists t :: Step(s, s', t)
  }

  /** An interleaving, from an initial state on. */
  ghost predicate IsRun(run: seq<State>) {
    && run != [] && Init(run[0])
    && forall i {:trigger Next(run[i - 1], run[i])} :: 0 < i < |run| ==> Next(run[i - 1], run[i])
  }
}
