/**
 What every interleaving of any number of counters and swappers keeps: the list stays a
 permutation of the initial nodes with the same head, links differ from it only at nodes a
 swapper has locked, and each thread holds neighbours.
 */
module ListInvariant {
  import opened Wrappers
  import opened ListProtocol

  // ---- the list ----

  lemma Distinct(chain: seq<Node>)
    ensures NoDup(chain) <==> forall i, j :: 0 <= i < j < |chain| ==> chain[i] != chain[j]
  {
    if NoDup(chain) {
      forall i, j | 0 <= i < j < |chain|
        ensures chain[i] != chain[j]
      {
        assert IndexOf(chain, chain[i]) == i && IndexOf(chain, chain[j]) == j;
      }
    }
  }

  ghost predicate Follows(chain: seq<Node>, v: Node, w: Node) {
    v in chain && w in chain && Succ(chain, v) == Some(w)
  }

  /** A swap keeps the nodes and changes what follows the three nodes involved only. */
  lemma SwapChain(chain: seq<Node>, c: Node, n: Node, m: Node)
    requires NoDup(chain) && Follows(chain, c, n) && Follows(chain, n, m)
    ensures IndexOf(chain, c) + 2 < |chain|
    ensures var chain' := Swapped(chain, IndexOf(chain, c));
            && |chain'| == |chain| && NoDup(chain') && chain'[0] == chain[0]
            && (forall v :: v in chain' <==> v in chain)
            && multiset(chain') == multiset(chain)
            && Succ(chain', c) == Some(m) && Succ(chain', m) == Some(n) && Succ(chain', n) == Succ(chain, m)
            && forall v {:trigger Succ(chain', v)} ::
                 v in chain && v != c && v != n && v != m ==> Succ(chain', v) == Succ(chain, v)
  {
    var i := IndexOf(chain, c);
    assert IndexOf(chain, chain[i + 1]) == i + 1;
    var chain' := Swapped(chain, i);
    assert forall k :: 0 <= k < |chain| && k != i + 1 && k != i + 2 ==> chain'[k] == chain[k];
    assert chain'[i + 1] == m && chain'[i + 2] == n;
    assert n != m && m == chain[i + 2];
    SwapMembers(chain, i);
    assert IndexOf(chain', chain'[i]) == i && IndexOf(chain', chain'[i + 1]) == i + 1;
    assert IndexOf(chain', chain'[i + 2]) == i + 2;
    forall v | v in chain && v != c && v != n && v != m
      ensures Succ(chain', v) == Succ(chain, v)
    {
      var k := IndexOf(chain, v);
      assert chain'[k] == v && IndexOf(chain', chain'[k]) == k;
    }
  }

  lemma SwapMembers(chain: seq<Node>, i: nat)
    requires NoDup(chain) && i + 2 < |chain|
    ensures var chain' := Swapped(chain, i);
            && NoDup(chain') && multiset(chain') == multiset(chain)
            && forall v :: v in chain' <==> v in chain
  {
    SwapMultiset(chain, i);
    Distinct(chain);
    Distinct(Swapped(chain, i));
  }

  lemma SwapMultiset(chain: seq<Node>, i: nat)
    requires i + 2 < |chain|
    ensures multiset(Swapped(chain, i)) == multiset(chain)
    ensures forall v :: v in Swapped(chain, i) <==> v in chain
  {
    var chain' := Swapped(chain, i);
    assert chain == chain[..i + 1] + [chain[i + 1], chain[i + 2]] + chain[i + 3..];
    assert chain' == chain[..i + 1] + [chain[i + 2], chain[i + 1]] + chain[i + 3..];
    assert forall v :: v in chain' <==> v in multiset(chain');
    assert forall v :: v in chain <==> v in multiset(chain);
  }

  // ---- the invariant ----

  /** How many nodes a thread holds at a label; -1 where it gives them back. */
  function Count(at: Label): int {
    match at
    case CEnter | CRestart | CTop | SEnter | STop | Stopped => 0
    case CHold | CWant | SHold | SWant | NHold | NWant => 1
    case CPair | SHold2 | SWant3 => 2
    case SHold3 | SWrote1 | SWrote2 | SWrote3 => 3
    case CLeave | SLeave | NLeave => -1
  }

  predicate CountOk(at: Label, n: nat) {
    if Count(at) < 0 then n > 0 else n == Count(at)
  }

  /** The nodes a thread holds in the order they have in the list. */
  function Order(th: Thread): seq<Node> {
    if th.at == SWrote3 && |th.held| == 3 then [th.held[0], th.held[2], th.held[1]] else th.held
  }

  /** Nodes whose link the thread has written but the list does not have yet. */
  predicate IsDirty(th: Thread, v: Node) {
    |th.held| == 3 &&
    (((th.at == SWrote1 || th.at == SWrote2) && v == th.held[1]) || (th.at == SWrote2 && v == th.held[2]))
  }

  /** Up to three consecutive nodes of the list. */
  ghost predicate Stretch(chain: seq<Node>, held: seq<Node>) {
    && |held| <= 3
    && (|held| > 0 ==> held[0] in chain)
    && (|held| > 1 ==> Follows(chain, held[0], held[1]))
    && (|held| > 2 ==> Follows(chain, held[1], held[2]))
  }

  predicate Wants(at: Label) {
    at == CWant || at == SWant || at == SWant3 || at == NWant
  }

  ghost predicate PlaceOk(chain: seq<Node>, th: Thread) {
    && CountOk(th.at, |th.held|)
    && Stretch(chain, Order(th))
    && (th.saved.Some? ==> th.saved.value in chain)
    && (Wants(th.at) ==> Succ(chain, th.held[|th.held| - 1]) != None)
  }

  /** The links of the nodes a thread is in the middle of swapping. */
  ghost predicate SwapLinks(s: State, th: Thread)
    requires PlaceOk(s.chain, th)
  {
    && (th.at == SWrote1 || th.at == SWrote2 ==> Link(s, th.held[1]) == Succ(s.chain, th.held[2]))
    && (th.at == SWrote2 ==> Link(s, th.held[2]) == Some(th.held[1]))
  }

  ghost predicate LockIs(s: State, t: Tid, v: Node)
    requires t in s.threads && v in s.locks
  {
    var l, th := s.locks[v], s.threads[t];
    && (t in l.readers <==> v in th.held && !Exclusive(s, th.at))
    && (l.writer == Some(t) <==> v in th.held && Exclusive(s, th.at))
  }

  ghost predicate LockOk(s: State, v: Node)
    requires v in s.locks
  {
    var l := s.locks[v];
    && l.readers <= s.threads.Keys
    && (l.writer.Some? ==> l.writer.value in s.threads && l.readers == {})
  }

  ghost predicate Locks(s: State) {
    && (forall v {:trigger LockOk(s, v)} :: v in s.locks ==> LockOk(s, v))
    && forall t, v {:trigger LockIs(s, t, v)} :: t in s.threads && v in s.locks ==> LockIs(s, t, v)
  }

  ghost predicate Places(s: State) {
    forall t :: t in s.threads ==> PlaceOk(s.chain, s.threads[t]) && SwapLinks(s, s.threads[t])
  }

  ghost predicate Clean(s: State, v: Node) {
    forall t :: t in s.threads ==> !IsDirty(s.threads[t], v)
  }

  /** Where no swap is under way the links are the list. */
  ghost predicate Links(s: State) {
    forall v {:trigger Clean(s, v)} :: v in s.chain && Clean(s, v) ==> Link(s, v) == Succ(s.chain, v)
  }

  ghost predicate Inv(s: State) {
    Shape(s) && Locks(s) && Places(s) && Links(s)
  }

  /** A node locked exclusively is locked by one thread only. */
  lemma Alone(s: State, t: Tid, u: Tid, v: Node)
    requires Locks(s) && t in s.threads && u in s.threads && t != u && v in s.locks
    requires v in s.threads[t].held && v in s.threads[u].held
    ensures !Exclusive(s, s.threads[t].at) && !Exclusive(s, s.threads[u].at)
  {
    assert LockOk(s, v) && LockIs(s, t, v) && LockIs(s, u, v);
  }

  lemma PlaceOf(s: State, t: Tid)
    requires Inv(s) && t in s.threads
    ensures PlaceOk(s.chain, s.threads[t])
  {
  }

  lemma PlaceMembers(chain: seq<Node>, th: Thread, v: Node)
    requires PlaceOk(chain, th) && v in th.held
    ensures v in chain && th.at != Stopped
  {
    assert v in Order(th);
  }

  lemma HeldInChain(s: State, t: Tid, v: Node)
    requires Shape(s) && Places(s) && t in s.threads && v in s.threads[t].held
    ensures v in s.chain && v in s.locks && v in s.next && s.threads[t].at != Stopped
  {
    PlaceMembers(s.chain, s.threads[t], v);
  }

  /** A thread reads the list in the nodes it has locked. */
  lemma ReadsList(s: State, t: Tid, v: Node)
    requires Inv(s) && t in s.threads && v in s.threads[t].held && !IsDirty(s.threads[t], v)
    ensures v in s.chain && Link(s, v) == Succ(s.chain, v)
  {
    HeldInChain(s, t, v);
    forall u | u in s.threads
      ensures !IsDirty(s.threads[u], v)
    {
      if u != t && IsDirty(s.threads[u], v) {
        Alone(s, t, u, v);
      }
    }
    assert Clean(s, v);
  }

  // ---- stretches ----

  lemma FollowsIndex(chain: seq<Node>, v: Node, w: Node)
    requires NoDup(chain) && Follows(chain, v, w)
    ensures IndexOf(chain, w) == IndexOf(chain, v) + 1
  {
    assert IndexOf(chain, chain[IndexOf(chain, v) + 1]) == IndexOf(chain, v) + 1;
  }

  /** The nodes of a stretch lie one behind the other. */
  lemma StretchIndex(chain: seq<Node>, held: seq<Node>)
    requires NoDup(chain) && Stretch(chain, held)
    ensures forall i :: 0 <= i < |held| ==> held[i] in chain && IndexOf(chain, held[i]) == IndexOf(chain, held[0]) + i
    ensures forall i, j :: 0 <= i < j < |held| ==> held[i] != held[j]
  {
    if |held| > 1 {
      FollowsIndex(chain, held[0], held[1]);
    }
    if |held| > 2 {
      FollowsIndex(chain, held[1], held[2]);
    }
  }

  lemma StretchGrows(chain: seq<Node>, held: seq<Node>, v: Node)
    requires NoDup(chain) && Stretch(chain, held) && 0 < |held| < 3 && Follows(chain, held[|held| - 1], v)
    ensures Stretch(chain, held + [v]) && v !in held
  {
    var more := held + [v];
    StretchIndex(chain, more);
    assert more[|held|] == v && forall i :: 0 <= i < |held| ==> more[i] == held[i];
  }

  lemma StretchFront(chain: seq<Node>, held: seq<Node>)
    requires NoDup(chain) && Stretch(chain, held) && held != []
    ensures Stretch(chain, held[1..]) && forall x :: x in held[1..] <==> x in held && x != held[0]
  {
    StretchIndex(chain, held);
    assert held == [held[0]] + held[1..];
  }

  lemma StretchBack(chain: seq<Node>, held: seq<Node>)
    requires NoDup(chain) && Stretch(chain, held) && held != []
    ensures var n := |held| - 1;
            Stretch(chain, held[..n]) && forall x :: x in held[..n] <==> x in held && x != held[n]
  {
    StretchIndex(chain, held);
    assert held == held[..|held| - 1] + [held[|held| - 1]];
  }

  // ---- each kind of step keeps it ----

  ghost predicate SameHeld(th: Thread, th': Thread) {
    forall v :: v in th.held <==> v in th'.held
  }

  ghost predicate NeverDirty(th: Thread) {
    forall v :: !IsDirty(th, v)
  }

  lemma CleanBefore(s: State, s': State, t: Tid, v: Node)
    requires t in s.threads && t in s'.threads && s'.threads == s.threads[t := s'.threads[t]]
    requires Clean(s', v) && !IsDirty(s.threads[t], v)
    ensures Clean(s, v)
  {
    forall u | u in s.threads
      ensures !IsDirty(s.threads[u], v)
    {
      assert u in s'.threads;
    }
  }

  /** A step that writes no link, seen from everything but the locks. */
  lemma QuietKeeps(s: State, s': State, t: Tid, th: Thread)
    requires Shape(s) && Places(s) && Links(s)
    requires t in s.threads && s' == s.(locks := s'.locks, threads := s.threads[t := th])
    requires forall v :: v in s'.locks <==> v in s.locks
    requires NeverDirty(s.threads[t]) && th.at != SWrote1 && th.at != SWrote2
    requires PlaceOk(s.chain, th)
    ensures Shape(s') && Places(s') && Links(s')
  {
    QuietLinks(s, s', t);
    forall u | u in s'.threads
      ensures PlaceOk(s'.chain, s'.threads[u]) && SwapLinks(s', s'.threads[u])
    {
      if u != t {
        assert s'.threads[u] == s.threads[u];
      }
    }
  }

  lemma QuietLinks(s: State, s': State, t: Tid)
    requires Links(s) && s'.next == s.next && s'.chain == s.chain
    requires t in s.threads && t in s'.threads && s'.threads == s.threads[t := s'.threads[t]]
    requires NeverDirty(s.threads[t])
    ensures Links(s')
  {
    forall v | v in s'.chain && Clean(s', v)
      ensures Link(s', v) == Succ(s'.chain, v)
    {
      CleanBefore(s, s', t, v);
    }
  }

  /** Threads change hands of nothing. */
  lemma UnlockedKeeps(s: State, s': State, t: Tid, th: Thread)
    requires Locks(s) && t in s.threads && s'.locks == s.locks && s'.mutexes == s.mutexes
    requires s'.threads == s.threads[t := th] && SameHeld(s.threads[t], th)
    requires IsCounter(s.threads[t].at) == IsCounter(th.at) || th.held == []
    ensures Locks(s')
  {
    forall v | v in s'.locks
      ensures LockOk(s', v)
    {
      assert LockOk(s, v);
    }
    forall u, v | u in s'.threads && v in s'.locks
      ensures LockIs(s', u, v)
    {
      assert LockIs(s, u, v);
    }
  }

  lemma AcquireLock(s: State, s': State, t: Tid, v: Node, at: Label, u: Tid, w: Node)
    requires Locks(s) && t in s.threads && Acquire(s, s', t, v, at)
    requires v !in s.threads[t].held && IsCounter(s.threads[t].at) == IsCounter(at)
    requires u in s.threads && w in s.locks
    ensures LockIs(s', u, w)
  {
    assert LockIs(s, u, w) && LockOk(s, w);
  }

  lemma AcquireLocks(s: State, s': State, t: Tid, v: Node, at: Label)
    requires Locks(s) && t in s.threads && Acquire(s, s', t, v, at)
    requires v !in s.threads[t].held && IsCounter(s.threads[t].at) == IsCounter(at)
    ensures Locks(s')
  {
    forall w | w in s'.locks
      ensures LockOk(s', w)
    {
      assert LockOk(s, w);
    }
    forall u, w | u in s'.threads && w in s'.locks
      ensures LockIs(s', u, w)
    {
      AcquireLock(s, s', t, v, at, u, w);
    }
  }

  lemma ReleaseLock(s: State, s': State, t: Tid, v: Node, held: seq<Node>, at: Label, u: Tid, w: Node)
    requires Locks(s) && t in s.threads && Release(s, s', t, v, held, at)
    requires forall x :: x in held <==> x in s.threads[t].held && x != v
    requires IsCounter(s.threads[t].at) == IsCounter(at)
    requires u in s.threads && w in s.locks
    ensures LockIs(s', u, w)
  {
    assert LockIs(s, u, w) && LockOk(s, w) && LockIs(s, t, v);
  }

  lemma ReleaseLocks(s: State, s': State, t: Tid, v: Node, held: seq<Node>, at: Label)
    requires Locks(s) && t in s.threads && Release(s, s', t, v, held, at)
    requires forall x :: x in held <==> x in s.threads[t].held && x != v
    requires IsCounter(s.threads[t].at) == IsCounter(at)
    ensures Locks(s')
  {
    forall w | w in s'.locks
      ensures LockOk(s', w)
    {
      assert LockOk(s, w);
    }
    forall u, w | u in s'.threads && w in s'.locks
      ensures LockIs(s', u, w)
    {
      ReleaseLock(s, s', t, v, held, at, u, w);
    }
  }

  lemma GoKeeps(s: State, s': State, t: Tid, th: Thread)
    requires Inv(s) && t in s.threads && Go(s, s', t, th) && SameHeld(s.threads[t], th)
    requires IsCounter(s.threads[t].at) == IsCounter(th.at) || th.held == []
    requires NeverDirty(s.threads[t]) && th.at != SWrote1 && th.at != SWrote2
    requires PlaceOk(s.chain, th)
    ensures Inv(s')
  {
    QuietKeeps(s, s', t, th);
    UnlockedKeeps(s, s', t, th);
  }

  lemma AcquireKeeps(s: State, s': State, t: Tid, v: Node, at: Label)
    requires Inv(s) && t in s.threads && Acquire(s, s', t, v, at)
    requires v !in s.threads[t].held && IsCounter(s.threads[t].at) == IsCounter(at)
    requires NeverDirty(s.threads[t]) && at != SWrote1 && at != SWrote2
    requires PlaceOk(s.chain, Thread(at, s.threads[t].held + [v], s.threads[t].saved))
    ensures Inv(s')
  {
    QuietKeeps(s, s', t, Thread(at, s.threads[t].held + [v], s.threads[t].saved));
    AcquireLocks(s, s', t, v, at);
  }

  lemma ReleaseKeeps(s: State, s': State, t: Tid, v: Node, held: seq<Node>, at: Label)
    requires Inv(s) && t in s.threads && Release(s, s', t, v, held, at)
    requires forall x :: x in held <==> x in s.threads[t].held && x != v
    requires IsCounter(s.threads[t].at) == IsCounter(at)
    requires NeverDirty(s.threads[t]) && at != SWrote1 && at != SWrote2
    requires PlaceOk(s.chain, Thread(at, held, s.threads[t].saved))
    ensures Inv(s')
  {
    QuietKeeps(s, s', t, Thread(at, held, s.threads[t].saved));
    ReleaseLocks(s, s', t, v, held, at);
  }

  /** Nobody else holds what a swapper, or a thread of the mutex build, holds. */
  lemma Apart(s: State, t: Tid, u: Tid)
    requires Inv(s) && t in s.threads && u in s.threads && t != u && Exclusive(s, s.threads[t].at)
    ensures forall v :: v in s.threads[t].held ==> v !in s.threads[u].held
  {
    forall v | v in s.threads[t].held
      ensures v !in s.threads[u].held
    {
      if v in s.threads[u].held {
        HeldInChain(s, t, v);
        Alone(s, t, u, v);
      }
    }
  }

  lemma OtherLinks(s: State, s': State, th: Thread, v: Node)
    requires PlaceOk(s.chain, th) && SwapLinks(s, th) && v !in th.held
    requires s'.chain == s.chain && forall w :: w != v ==> Link(s', w) == Link(s, w)
    ensures SwapLinks(s', th)
  {
  }

  /** The first two writes of a swap: the list stays, one link is dirty that was not. */
  lemma DirtyWriteKeeps(s: State, s': State, t: Tid, v: Node, to: Option<Node>, at: Label)
    requires Inv(s) && t in s.threads && Write(s, s', t, v, to, at, s.chain)
    requires v in s.threads[t].held && !IsCounter(s.threads[t].at) && !IsCounter(at)
    requires forall w :: IsDirty(s.threads[t], w) ==> IsDirty(s.threads[t].(at := at), w)
    requires IsDirty(s.threads[t].(at := at), v)
    requires PlaceOk(s.chain, s.threads[t].(at := at)) && SwapLinks(s', s.threads[t].(at := at))
    ensures Inv(s')
  {
    UnlockedKeeps(s, s', t, s.threads[t].(at := at));
    DirtyPlaces(s, s', t, v, to, at);
    DirtyLinks(s, s', t, v, to, at);
  }

  lemma DirtyPlaces(s: State, s': State, t: Tid, v: Node, to: Option<Node>, at: Label)
    requires Inv(s) && t in s.threads && Write(s, s', t, v, to, at, s.chain)
    requires v in s.threads[t].held && !IsCounter(s.threads[t].at)
    requires PlaceOk(s.chain, s.threads[t].(at := at)) && SwapLinks(s', s.threads[t].(at := at))
    ensures Places(s')
  {
    forall u | u in s'.threads
      ensures PlaceOk(s'.chain, s'.threads[u]) && SwapLinks(s', s'.threads[u])
    {
      if u != t {
        Apart(s, t, u);
        OtherLinks(s, s', s.threads[u], v);
      }
    }
  }

  lemma DirtyLinks(s: State, s': State, t: Tid, v: Node, to: Option<Node>, at: Label)
    requires Links(s) && t in s.threads && Write(s, s', t, v, to, at, s.chain)
    requires forall w :: IsDirty(s.threads[t], w) ==> IsDirty(s.threads[t].(at := at), w)
    requires IsDirty(s.threads[t].(at := at), v)
    ensures Links(s')
  {
    forall w | w in s'.chain && Clean(s', w)
      ensures Link(s', w) == Succ(s'.chain, w)
    {
      assert !IsDirty(s'.threads[t], w);
      CleanBefore(s, s', t, w);
    }
  }

  /** What the third write does to the list and the links, as other threads see it. */
  ghost predicate SwapSeen(s: State, s': State, c: Node, n: Node, m: Node) {
    && (forall v :: v in s'.chain <==> v in s.chain)
    && (forall v {:trigger Succ(s'.chain, v)} ::
          v in s.chain && v != c && v != n && v != m ==> Succ(s'.chain, v) == Succ(s.chain, v))
    && (forall v :: v != c ==> Link(s', v) == Link(s, v))
  }

  lemma SwapOther(s: State, s': State, th: Thread, c: Node, n: Node, m: Node)
    requires SwapSeen(s, s', c, n, m) && PlaceOk(s.chain, th) && SwapLinks(s, th)
    requires c !in th.held && n !in th.held && m !in th.held
    ensures PlaceOk(s'.chain, th) && SwapLinks(s', th)
  {
    assert forall v :: v in Order(th) ==> v in th.held;
  }

  lemma SwapperPlace(s': State, th: Thread)
    requires |th.held| == 3 && th.at == SWrote2 && (th.saved.Some? ==> th.saved.value in s'.chain)
    requires th.held[0] in s'.chain && th.held[1] in s'.chain && th.held[2] in s'.chain
    requires Succ(s'.chain, th.held[0]) == Some(th.held[2]) && Succ(s'.chain, th.held[2]) == Some(th.held[1])
    ensures PlaceOk(s'.chain, th.(at := SWrote3)) && SwapLinks(s', th.(at := SWrote3))
  {
    var th' := th.(at := SWrote3);
    assert Order(th') == [th.held[0], th.held[2], th.held[1]];
    assert Stretch(s'.chain, [th.held[0], th.held[2], th.held[1]]);
  }

  lemma SwapPlaces(s: State, s': State, t: Tid)
    requires Inv(s) && t in s.threads && s.threads[t].at == SWrote2 && |s.threads[t].held| == 3
    requires s'.threads == s.threads[t := s.threads[t].(at := SWrote3)]
    requires var held := s.threads[t].held;
             && SwapSeen(s, s', held[0], held[1], held[2])
             && held[0] in s.chain && held[1] in s.chain && held[2] in s.chain
             && Succ(s'.chain, held[0]) == Some(held[2]) && Succ(s'.chain, held[2]) == Some(held[1])
    ensures Places(s')
  {
    var held := s.threads[t].held;
    SwapperPlace(s', s.threads[t]);
    forall u | u in s'.threads
      ensures PlaceOk(s'.chain, s'.threads[u]) && SwapLinks(s', s'.threads[u])
    {
      if u != t {
        Apart(s, t, u);
        assert held[0] in held && held[1] in held && held[2] in held;
        SwapOther(s, s', s.threads[u], held[0], held[1], held[2]);
      }
    }
  }

  lemma SwapLinked(s: State, s': State, t: Tid)
    requires Inv(s) && t in s.threads && s.threads[t].at == SWrote2 && |s.threads[t].held| == 3
    requires s'.threads == s.threads[t := s.threads[t].(at := SWrote3)]
    requires var held := s.threads[t].held;
             && SwapSeen(s, s', held[0], held[1], held[2])
             && held[0] in s.chain && held[1] in s.chain && held[2] in s.chain
             && Link(s', held[0]) == Succ(s'.chain, held[0])
             && Link(s', held[1]) == Succ(s'.chain, held[1])
             && Link(s', held[2]) == Succ(s'.chain, held[2])
    ensures Links(s')
  {
    var held := s.threads[t].held;
    forall w | w in s'.chain && Clean(s', w)
      ensures Link(s', w) == Succ(s'.chain, w)
    {
      if w != held[0] && w != held[1] && w != held[2] {
        CleanBefore(s, s', t, w);
      }
    }
  }

  /** The first node and the nodes themselves, whatever is done to their order. */
  ghost predicate SameNodes(s: State, s': State) {
    multiset(s'.chain) == multiset(s.chain) && s'.first == s.first && s'.mutexes == s.mutexes
  }

  lemma SwapShape(s: State, s': State, t: Tid)
    requires Inv(s) && t in s.threads && s.threads[t].at == SWrote2 && WriteSwap(s, s', t)
    ensures Shape(s') && SameNodes(s, s')
  {
    var held := s.threads[t].held;
    assert PlaceOk(s.chain, s.threads[t]);
    SwapChain(s.chain, held[0], held[1], held[2]);
  }

  /** What the third write leaves behind, in the links and in the list. */
  ghost predicate Exchanged(s: State, s': State, held: seq<Node>) {
    && |held| == 3 && SwapSeen(s, s', held[0], held[1], held[2])
    && held[0] in s.chain && held[1] in s.chain && held[2] in s.chain
    && Link(s', held[0]) == Succ(s'.chain, held[0]) == Some(held[2])
    && Link(s', held[2]) == Succ(s'.chain, held[2]) == Some(held[1])
    && Link(s', held[1]) == Succ(s'.chain, held[1])
  }

  lemma WriteExchanges(s: State, s': State, t: Tid)
    requires t in s.threads && WriteSwap(s, s', t)
    requires var held := s.threads[t].held;
             && NoDup(s.chain) && Stretch(s.chain, held)
             && Link(s, held[1]) == Succ(s.chain, held[2]) && Link(s, held[2]) == Some(held[1])
    ensures Exchanged(s, s', s.threads[t].held)
  {
    var held := s.threads[t].held;
    StretchIndex(s.chain, held);
    SwapChain(s.chain, held[0], held[1], held[2]);
  }

  lemma SwapFacts(s: State, s': State, t: Tid)
    requires Inv(s) && t in s.threads && s.threads[t].at == SWrote2 && WriteSwap(s, s', t)
    ensures Exchanged(s, s', s.threads[t].held)
  {
    var held := s.threads[t].held;
    assert Stretch(s.chain, held)
           && Link(s, held[1]) == Succ(s.chain, held[2]) && Link(s, held[2]) == Some(held[1]) by {
      assert PlaceOk(s.chain, s.threads[t]) && SwapLinks(s, s.threads[t]);
    }
    WriteExchanges(s, s', t);
  }

  /** The third write completes the swap, in the links and in the list. */
  lemma SwapKeeps(s: State, s': State, t: Tid)
    requires Inv(s) && t in s.threads && s.threads[t].at == SWrote2 && WriteSwap(s, s', t)
    ensures Inv(s') && SameNodes(s, s')
  {
    SwapShape(s, s', t);
    SwapFacts(s, s', t);
    UnlockedKeeps(s, s', t, s.threads[t].(at := SWrote3));
    SwapPlaces(s, s', t);
    SwapLinked(s, s', t);
  }

  // ---- every step ----

  /** Where a thread that is not about to lock a next node, nor about to reread its pointers, may be. */
  lemma PlainPlace(chain: seq<Node>, th: Thread)
    requires CountOk(th.at, |th.held|) && Stretch(chain, th.held) && th.at != SWrote3 && !Wants(th.at)
    requires th.saved.Some? ==> th.saved.value in chain
    ensures PlaceOk(chain, th)
  {
  }

  ghost predicate LeadsOn(s: State, held: seq<Node>) {
    && 0 < |held| < 3
    && var l := Link(s, held[|held| - 1]); l.Some? && Follows(s.chain, held[|held| - 1], l.value)
  }

  /** The link that leads on from what a thread has locked is the list's. */
  lemma NextInList(s: State, t: Tid)
    requires Inv(s) && t in s.threads && Wants(s.threads[t].at)
    ensures LeadsOn(s, s.threads[t].held)
  {
    hide Inv;
    var th := s.threads[t];
    PlaceOf(s, t);
    ReadsList(s, t, th.held[|th.held| - 1]);
  }

  /** t locks one node more, and at is where it then is. */
  predicate Continues(from: Label, at: Label) {
    || (from == CWant && at == CPair) || (from == SWant && at == SHold2)
    || (from == SWant3 && at == SHold3) || (from == NWant && at == NLeave)
  }

  lemma PlaceGrows(chain: seq<Node>, th: Thread, v: Node, at: Label)
    requires NoDup(chain) && PlaceOk(chain, th) && Continues(th.at, at)
    requires th.held != [] && Follows(chain, th.held[|th.held| - 1], v)
    ensures v !in th.held && PlaceOk(chain, Thread(at, th.held + [v], th.saved))
  {
    StretchGrows(chain, th.held, v);
    PlainPlace(chain, Thread(at, th.held + [v], th.saved));
  }

  /** The node the link leads to extends what a thread has locked. */
  lemma NextPlace(s: State, t: Tid, v: Node, at: Label)
    requires Inv(s) && t in s.threads && Continues(s.threads[t].at, at)
    requires s.threads[t].held != [] && Link(s, s.threads[t].held[|s.threads[t].held| - 1]) == Some(v)
    ensures var th := s.threads[t];
            v !in th.held && NeverDirty(th) && PlaceOk(s.chain, Thread(at, th.held + [v], th.saved))
  {
    var th := s.threads[t];
    NextInList(s, t);
    PlaceGrows(s.chain, th, v, at);
  }

  lemma AcquireNextKeeps(s: State, s': State, t: Tid, at: Label)
    requires Inv(s) && t in s.threads && AcquireNext(s, s', t, at) && Continues(s.threads[t].at, at)
    ensures Inv(s') && SameNodes(s, s')
  {
    var v := LockedNext(s, s', t, at);
    AcquireOneMore(s, s', t, v, at);
  }

  lemma LockedNext(s: State, s': State, t: Tid, at: Label) returns (v: Node)
    requires t in s.threads && AcquireNext(s, s', t, at)
    ensures s.threads[t].held != [] && Link(s, s.threads[t].held[|s.threads[t].held| - 1]) == Some(v)
    ensures Acquire(s, s', t, v, at)
  {
    var held := s.threads[t].held;
    v := Link(s, held[|held| - 1]).value;
  }

  lemma AcquireOneMore(s: State, s': State, t: Tid, v: Node, at: Label)
    requires Inv(s) && t in s.threads && Acquire(s, s', t, v, at) && Continues(s.threads[t].at, at)
    requires s.threads[t].held != [] && Link(s, s.threads[t].held[|s.threads[t].held| - 1]) == Some(v)
    ensures Inv(s') && SameNodes(s, s')
  {
    NextPlace(s, t, v, at);
    AcquireKeeps(s, s', t, v, at);
  }

  /** A thread goes on to lock the next node, or keeps what it has locked and gives it back. */
  ghost predicate MayTest(th: Thread, more: Label, last: Thread) {
    && NeverDirty(th) && th.at != SWrote3 && last.held == th.held
    && IsCounter(th.at) == IsCounter(more) == IsCounter(last.at)
    && Wants(more) && CountOk(more, |th.held|)
    && CountOk(last.at, |last.held|) && !Wants(last.at) && Count(last.at) < 3
  }

  lemma LastPlace(s: State, t: Tid, last: Thread)
    requires Places(s) && t in s.threads && s.threads[t].at != SWrote3 && last.held == s.threads[t].held
    requires CountOk(last.at, |last.held|) && !Wants(last.at) && last.at != SWrote3
    requires last.saved.Some? ==> last.saved.value in s.chain
    ensures PlaceOk(s.chain, last)
  {
    assert PlaceOk(s.chain, s.threads[t]);
    PlainPlace(s.chain, last);
  }

  /** Where the link of the last node is not NULL the list goes on. */
  lemma MorePlace(s: State, t: Tid, more: Label)
    requires Inv(s) && t in s.threads && s.threads[t].at != SWrote3 && NeverDirty(s.threads[t])
    requires Wants(more) && CountOk(more, |s.threads[t].held|)
    requires s.threads[t].held != [] && Link(s, s.threads[t].held[|s.threads[t].held| - 1]) != None
    ensures PlaceOk(s.chain, s.threads[t].(at := more))
  {
    var th := s.threads[t];
    assert PlaceOk(s.chain, th);
    ReadsList(s, t, th.held[|th.held| - 1]);
  }

  lemma TestKeeps(s: State, s': State, t: Tid, more: Label, last: Thread)
    requires Inv(s) && t in s.threads && Test(s, s', t, more, last) && MayTest(s.threads[t], more, last)
    requires last.saved.Some? ==> last.saved.value in s.chain
    ensures Inv(s') && SameNodes(s, s')
  {
    var th := s.threads[t];
    if Go(s, s', t, last) {
      LastPlace(s, t, last);
      GoKeeps(s, s', t, last);
    } else {
      MorePlace(s, t, more);
      GoKeeps(s, s', t, th.(at := more));
    }
  }

  lemma ReleaseFrontKeeps(s: State, s': State, t: Tid, done: Label)
    requires Inv(s) && t in s.threads && ReleaseFront(s, s', t, s.threads[t].at, done)
    requires (s.threads[t].at == CLeave && done == CTop) || (s.threads[t].at == SLeave && done == STop)
    ensures Inv(s') && SameNodes(s, s')
  {
    var th := s.threads[t];
    assert PlaceOk(s.chain, th);
    StretchFront(s.chain, th.held);
    ReleaseKeeps(s, s', t, th.held[0], th.held[1..], if |th.held| > 1 then th.at else done);
  }

  lemma ReleaseBackKeeps(s: State, s': State, t: Tid)
    requires Inv(s) && t in s.threads && s.threads[t].at == NLeave && ReleaseBack(s, s', t, NLeave, STop)
    ensures Inv(s') && SameNodes(s, s')
  {
    var th := s.threads[t];
    var n := |th.held| - 1;
    assert PlaceOk(s.chain, th);
    StretchBack(s.chain, th.held);
    ReleaseKeeps(s, s', t, th.held[n], th.held[..n], if n > 0 then NLeave else STop);
  }

  /** Behind its last write the swapper finds in the links what it has put there. */
  lemma RereadPlace(s: State, t: Tid)
    requires Inv(s) && t in s.threads && s.threads[t].at == SWrote3
    ensures var held := s.threads[t].held;
            && |held| == 3
            && Link(s, held[0]) == Some(held[2]) && Link(s, held[2]) == Some(held[1])
            && PlaceOk(s.chain, Thread(SLeave, [held[0], held[2], held[1]], Some(held[2])))
  {
    OrderIsStretch(s.chain, s.threads[t]);
    var held := s.threads[t].held;
    ReadsList(s, t, held[0]);
    ReadsList(s, t, held[2]);
  }

  lemma OrderIsStretch(chain: seq<Node>, th: Thread)
    requires PlaceOk(chain, th) && th.at == SWrote3
    ensures |th.held| == 3 && Stretch(chain, [th.held[0], th.held[2], th.held[1]])
    ensures Follows(chain, th.held[0], th.held[2]) && Follows(chain, th.held[2], th.held[1])
    ensures PlaceOk(chain, Thread(SLeave, [th.held[0], th.held[2], th.held[1]], Some(th.held[2])))
  {
    var order := Order(th);
    assert Follows(chain, order[0], order[1]) && Follows(chain, order[1], order[2]);
    PlainPlace(chain, Thread(SLeave, order, Some(order[1])));
  }

  lemma RereadKeeps(s: State, s': State, t: Tid)
    requires Inv(s) && t in s.threads && s.threads[t].at == SWrote3 && Reread(s, s', t)
    ensures Inv(s') && SameNodes(s, s')
  {
    hide Inv;
    RereadPlace(s, t);
    var held := s.threads[t].held;
    SameThree(s.threads[t], Thread(SLeave, [held[0], held[2], held[1]], Some(held[2])));
    GoKeeps(s, s', t, Thread(SLeave, [held[0], held[2], held[1]], Some(held[2])));
  }

  lemma SameThree(th: Thread, th': Thread)
    requires |th.held| == 3 && th'.held == [th.held[0], th.held[2], th.held[1]]
    ensures SameHeld(th, th')
  {
    assert th'.held[1] == th.held[2] && th'.held[2] == th.held[1];
  }

  lemma Write1Keeps(s: State, s': State, t: Tid)
    requires Inv(s) && t in s.threads && s.threads[t].at == SHold3 && |s.threads[t].held| == 3
    requires var held := s.threads[t].held; Write(s, s', t, held[1], Link(s, held[2]), SWrote1, s.chain)
    ensures Inv(s') && SameNodes(s, s')
  {
    Write1Place(s, s', t);
    DirtyWriteKeeps(s, s', t, s.threads[t].held[1], Link(s, s.threads[t].held[2]), SWrote1);
  }

  lemma Write1Place(s: State, s': State, t: Tid)
    requires Inv(s) && t in s.threads && s.threads[t].at == SHold3 && |s.threads[t].held| == 3
    requires forall v :: v != s.threads[t].held[1] ==> Link(s', v) == Link(s, v)
    requires s'.chain == s.chain && Link(s', s.threads[t].held[1]) == Link(s, s.threads[t].held[2])
    ensures var th := s.threads[t].(at := SWrote1); PlaceOk(s.chain, th) && SwapLinks(s', th)
  {
    assert PlaceOk(s.chain, s.threads[t]);
    Hold3Place(s.chain, s.threads[t]);
    ReadsList(s, t, s.threads[t].held[2]);
  }

  lemma Hold3Place(chain: seq<Node>, th: Thread)
    requires PlaceOk(chain, th) && th.at == SHold3
    ensures |th.held| == 3 && PlaceOk(chain, th.(at := SWrote1))
  {
    PlainPlace(chain, th.(at := SWrote1));
  }

  lemma Write2Keeps(s: State, s': State, t: Tid)
    requires Inv(s) && t in s.threads && s.threads[t].at == SWrote1 && |s.threads[t].held| == 3
    requires var held := s.threads[t].held; Write(s, s', t, held[2], Some(held[1]), SWrote2, s.chain)
    ensures Inv(s') && SameNodes(s, s')
  {
    var th := s.threads[t];
    assert PlaceOk(s.chain, th) && SwapLinks(s, th);
    StretchIndex(s.chain, th.held);
    DirtyWriteKeeps(s, s', t, th.held[2], Some(th.held[1]), SWrote2);
  }

  /** From the top of the loop curr is locked, or the next pass begins. */
  lemma CounterTopKeeps(s: State, s': State, t: Tid)
    requires Inv(s) && t in s.threads && s.threads[t].at == CTop && CounterStep(s, s', t)
    ensures Inv(s') && SameNodes(s, s')
  {
    var th := s.threads[t];
    assert PlaceOk(s.chain, th);
    if th.saved == None {
      GoKeeps(s, s', t, th.(at := CRestart));
    } else {
      PlainPlace(s.chain, Thread(CHold, [th.saved.value], th.saved));
      assert th.held + [th.saved.value] == [th.saved.value];
      AcquireKeeps(s, s', t, th.saved.value, CHold);
    }
  }

  lemma CounterGoKeeps(s: State, s': State, t: Tid, th: Thread)
    requires Inv(s) && t in s.threads && Go(s, s', t, th) && th.held == s.threads[t].held
    requires if s.threads[t].at == CPair then th.at == CLeave && |th.held| == 2 && th.saved == Some(th.held[1])
             else && (s.threads[t].at == CEnter || s.threads[t].at == CRestart)
                  && (th.at == Stopped || th.at == CRestart || th.at == CTop)
                  && (th.saved == s.threads[t].saved || th.saved == s.first)
    ensures Inv(s') && SameNodes(s, s')
  {
    hide Inv;
    PlaceOf(s, t);
    FirstInList(s);
    PlainPlace(s.chain, th);
    GoKeeps(s, s', t, th);
  }

  lemma FirstInList(s: State)
    requires Inv(s)
    ensures s.first.Some? ==> s.first.value in s.chain
  {
  }

  lemma CounterHoldKeeps(s: State, s': State, t: Tid)
    requires Inv(s) && t in s.threads && s.threads[t].at == CHold
    requires Test(s, s', t, CWant, Thread(CLeave, s.threads[t].held, None))
    ensures Inv(s') && SameNodes(s, s')
  {
    HoldsOne(s, t);
    MayTestOne(s.threads[t]);
    TestKeeps(s, s', t, CWant, Thread(CLeave, s.threads[t].held, None));
  }

  lemma CounterKeeps(s: State, s': State, t: Tid)
    requires Inv(s) && t in s.threads && CounterStep(s, s', t)
    ensures Inv(s') && SameNodes(s, s')
  {
    match s.threads[t].at
    case CEnter | CRestart | CPair => CounterGoKeeps(s, s', t, s'.threads[t]);
    case CTop => CounterTopKeeps(s, s', t);
    case CHold => CounterHoldKeeps(s, s', t);
    case CWant => AcquireNextKeeps(s, s', t, CPair);
    case CLeave => ReleaseFrontKeeps(s, s', t, CTop);
  }

  lemma EnterKeeps(s: State, s': State, t: Tid, th: Thread)
    requires Inv(s) && t in s.threads && s.threads[t].at == SEnter && Go(s, s', t, th)
    requires th == s.threads[t].(at := Stopped) || th == Thread(STop, s.threads[t].held, s.first)
    ensures Inv(s') && SameNodes(s, s')
  {
    assert PlaceOk(s.chain, s.threads[t]);
    PlainPlace(s.chain, th);
    GoKeeps(s, s', t, th);
  }

  /** curr1 is locked, whether it will be swapped or not. */
  lemma TopLockKeeps(s: State, s': State, t: Tid, c: Node, at: Label)
    requires Inv(s) && t in s.threads && s.threads[t].at == STop && s.threads[t].saved == Some(c)
    requires (at == SHold || at == NHold) && Acquire(s, s', t, c, at)
    ensures Inv(s')
  {
    var th := s.threads[t];
    assert PlaceOk(s.chain, th);
    assert th.held + [c] == [c];
    PlainPlace(s.chain, Thread(at, [c], th.saved));
    AcquireKeeps(s, s', t, c, at);
  }

  lemma TopKeeps(s: State, s': State, t: Tid)
    requires Inv(s) && t in s.threads && s.threads[t].at == STop && SwapperStep(s, s', t)
    ensures Inv(s') && SameNodes(s, s')
  {
    var th := s.threads[t];
    if th.saved == None {
      assert PlaceOk(s.chain, th);
      GoKeeps(s, s', t, th.(at := SEnter));
    } else if Acquire(s, s', t, th.saved.value, SHold) {
      TopLockKeeps(s, s', t, th.saved.value, SHold);
    } else {
      TopLockKeeps(s, s', t, th.saved.value, NHold);
    }
  }

  lemma HoldsOne(s: State, t: Tid)
    requires Places(s) && t in s.threads && Count(s.threads[t].at) == 1
    ensures |s.threads[t].held| == 1 && (s.threads[t].saved.Some? ==> s.threads[t].saved.value in s.chain)
  {
    assert PlaceOk(s.chain, s.threads[t]);
  }

  lemma MayTestOne(th: Thread)
    requires |th.held| == 1
    ensures th.at == CHold ==> MayTest(th, CWant, Thread(CLeave, th.held, None))
    ensures th.at == SHold ==> MayTest(th, SWant, Thread(SLeave, th.held, None))
    ensures th.at == NHold ==> MayTest(th, NWant, th.(at := NLeave))
  {
  }

  lemma MayTestTwo(th: Thread)
    requires th.at == SHold2 && |th.held| == 2
    ensures MayTest(th, SWant3, Thread(SLeave, th.held, Some(th.held[1])))
  {
  }

  lemma Hold1Keeps(s: State, s': State, t: Tid)
    requires Inv(s) && t in s.threads && s.threads[t].at == SHold
    requires Test(s, s', t, SWant, Thread(SLeave, s.threads[t].held, None))
    ensures Inv(s') && SameNodes(s, s')
  {
    HoldsOne(s, t);
    MayTestOne(s.threads[t]);
    TestKeeps(s, s', t, SWant, Thread(SLeave, s.threads[t].held, None));
  }

  lemma Hold2Keeps(s: State, s': State, t: Tid)
    requires Inv(s) && t in s.threads && s.threads[t].at == SHold2 && |s.threads[t].held| == 2
    requires Test(s, s', t, SWant3, Thread(SLeave, s.threads[t].held, Some(s.threads[t].held[1])))
    ensures Inv(s') && SameNodes(s, s')
  {
    var held := s.threads[t].held;
    HeldInChain(s, t, held[1]);
    MayTestTwo(s.threads[t]);
    TestKeeps(s, s', t, SWant3, Thread(SLeave, held, Some(held[1])));
  }

  lemma NoSwapHoldKeeps(s: State, s': State, t: Tid, last: Thread)
    requires Inv(s) && t in s.threads && s.threads[t].at == NHold && last == s.threads[t].(at := NLeave)
    requires Test(s, s', t, NWant, last)
    ensures Inv(s') && SameNodes(s, s')
  {
    assert MayTest(s.threads[t], NWant, last) && (last.saved.Some? ==> last.saved.value in s.chain) by {
      HoldsOne(s, t);
      MayTestOne(s.threads[t]);
    }
    TestKeeps(s, s', t, NWant, last);
  }

  lemma SwapperKeeps(s: State, s': State, t: Tid)
    requires Inv(s) && t in s.threads && SwapperStep(s, s', t)
    ensures Inv(s') && SameNodes(s, s')
  {
    match s.threads[t].at
    case SEnter => EnterKeeps(s, s', t, s'.threads[t]);
    case STop => TopKeeps(s, s', t);
    case SHold => Hold1Keeps(s, s', t);
    case SHold2 => Hold2Keeps(s, s', t);
    case NHold => NoSwapHoldKeeps(s, s', t, s.threads[t].(at := NLeave));
    case SWant => AcquireNextKeeps(s, s', t, SHold2);
    case SWant3 => AcquireNextKeeps(s, s', t, SHold3);
    case NWant => AcquireNextKeeps(s, s', t, NLeave);
    case SHold3 => Write1Keeps(s, s', t);
    case SWrote1 => Write2Keeps(s, s', t);
    case SWrote2 => SwapKeeps(s, s', t);
    case SWrote3 => RereadKeeps(s, s', t);
    case SLeave => ReleaseFrontKeeps(s, s', t, STop);
    case NLeave => ReleaseBackKeeps(s, s', t);
  }

  lemma StepKeeps(s: State, s': State, t: Tid)
    requires Inv(s) && Step(s, s', t)
    ensures Inv(s') && SameNodes(s, s')
  {
    if CounterStep(s, s', t) {
      CounterKeeps(s, s', t);
    } else {
      SwapperKeeps(s, s', t);
    }
  }

  lemma InitInv(s: State)
    requires Init(s)
    ensures Inv(s)
  {
    forall t, v | t in s.threads && v in s.locks
      ensures LockIs(s, t, v)
    {
      assert s.threads[t].held == [];
    }
  }

  lemma NextKeeps(s: State, s': State)
    requires Inv(s) && Next(s, s')
    ensures Inv(s') && SameNodes(s, s')
  {
    var t :| Step(s, s', t);
    StepKeeps(s, s', t);
  }

  /** Every state of every interleaving satisfies the invariant; its list is a permutation of the
      initial one with the same first node. */
  lemma {:induction false} RunKeeps(run: seq<State>, i: nat)
    requires IsRun(run) && i < |run|
    ensures Inv(run[i]) && SameNodes(run[0], run[i])
    decreases i
  {
    if i == 0 {
      InitInv(run[0]);
    } else {
      RunKeeps(run, i - 1);
      assert Next(run[i - 1], run[i]);
      NextKeeps(run[i - 1], run[i]);
    }
  }

  // ---- what it means for the list and for the threads ----

  ghost predicate MidSwap(th: Thread) {
    th.at == SWrote1 || th.at == SWrote2
  }

  lemma LockedToSwap(s: State, t: Tid, v: Node)
    requires Inv(s) && t in s.threads && IsDirty(s.threads[t], v)
    ensures MidSwap(s.threads[t]) && v in s.threads[t].held && v in s.locks && s.locks[v].writer == Some(t)
  {
    HeldInChain(s, t, v);
    assert LockIs(s, t, v);
  }

  /** Where the list goes on from position k, or a swapper between its writes has the node there
      locked for itself. */
  ghost predicate LinkAt(s: State, k: nat)
    requires k < |s.chain|
  {
    var v := s.chain[k];
    || Link(s, v) == (if k + 1 < |s.chain| then Some(s.chain[k + 1]) else None)
    || exists t :: t in s.threads && MidSwap(s.threads[t]) && v in s.threads[t].held
                   && v in s.locks && s.locks[v].writer == Some(t)
  }

  /** Following the links from storage->first walks the list: every link that is not the list's
      belongs to a node that a swapper in mid-swap has locked for itself. */
  lemma LinksAre(s: State, k: nat)
    requires Inv(s) && k < |s.chain|
    ensures LinkAt(s, k)
  {
    var v := s.chain[k];
    if Clean(s, v) {
      assert IndexOf(s.chain, v) == k;
    } else {
      var t :| t in s.threads && IsDirty(s.threads[t], v);
      LockedToSwap(s, t, v);
    }
  }

  /** The two nodes a counter compares are neighbours in the list. */
  lemma ComparedPairAdjacent(s: State, t: Tid)
    requires Inv(s) && t in s.threads && s.threads[t].at == CPair
    ensures var held := s.threads[t].held;
            |held| == 2 && exists k :: 0 <= k < |s.chain| - 1 && s.chain[k] == held[0] && s.chain[k + 1] == held[1]
  {
    PairFollows(s, t);
    var k := IndexOf(s.chain, s.threads[t].held[0]);
    assert s.chain[k + 1] == s.threads[t].held[1];
  }

  lemma PairFollows(s: State, t: Tid)
    requires Places(s) && t in s.threads && s.threads[t].at == CPair
    ensures var held := s.threads[t].held; |held| == 2 && Follows(s.chain, held[0], held[1])
  {
    assert PlaceOk(s.chain, s.threads[t]);
  }

  ghost predicate OnlyThread(s: State, s': State, u: Tid) {
    u in s.threads && u in s'.threads && s'.threads == s.threads[u := s'.threads[u]]
  }

  lemma CounterFrame(s: State, s': State, u: Tid)
    requires u in s.threads && CounterStep(s, s', u)
    ensures OnlyThread(s, s', u)
  {
  }

  lemma SwapperFrame(s: State, s': State, u: Tid)
    requires u in s.threads && SwapperStep(s, s', u)
    ensures OnlyThread(s, s', u)
  {
  }

  lemma StepFrame(s: State, s': State, u: Tid)
    requires Step(s, s', u)
    ensures OnlyThread(s, s', u)
  {
    if CounterStep(s, s', u) {
      CounterFrame(s, s', u);
    } else {
      SwapperFrame(s, s', u);
    }
  }

  /** Whether it compares them or is about to give them back, a counter has two nodes locked. */
  predicate HoldsPair(th: Thread) {
    (th.at == CPair || th.at == CLeave) && |th.held| == 2
  }

  lemma HeldPairFollows(s: State, t: Tid)
    requires Places(s) && t in s.threads && HoldsPair(s.threads[t])
    ensures Follows(s.chain, s.threads[t].held[0], s.threads[t].held[1])
  {
    assert PlaceOk(s.chain, s.threads[t]);
  }

  lemma PairKept(s: State, s': State, t: Tid)
    requires Next(s, s') && t in s.threads && HoldsPair(s.threads[t]) && t in s'.threads && HoldsPair(s'.threads[t])
    ensures s'.threads[t].held == s.threads[t].held
  {
    var u :| Step(s, s', u);
    StepFrame(s, s', u);
    if u == t {
      assert CounterStep(s, s', t);
    }
  }

  /** From state i to state j of a run t has two nodes locked as a counter. */
  ghost predicate HoldsAlong(run: seq<State>, t: Tid, i: nat, j: nat)
    requires i <= j < |run|
  {
    forall k :: i <= k <= j ==> t in run[k].threads && HoldsPair(run[k].threads[t])
  }

  /** Whatever the others do, and however long a counter has two nodes locked, they stay the two
      neighbours they were. */
  lemma {:induction false} PairStays(run: seq<State>, t: Tid, i: nat, j: nat)
    requires IsRun(run) && i <= j < |run| && HoldsAlong(run, t, i, j)
    ensures var held := run[i].threads[t].held;
            |held| == 2 && run[j].threads[t].held == held && Follows(run[j].chain, held[0], held[1])
    decreases j
  {
    RunKeeps(run, j);
    HeldPairFollows(run[j], t);
    if i < j {
      PairStays(run, t, i, j - 1);
      assert Next(run[j - 1], run[j]);
      PairKept(run[j - 1], run[j], t);
    }
  }

  /** In every state of every interleaving: the list is a permutation of the initial one, without
      repetition and with the same first node; what counters compare are neighbours; and the
      links are the list, but for those a swapper is in the middle of writing. */
  lemma RunSafe(run: seq<State>, i: nat)
    requires IsRun(run) && i < |run|
    ensures var s := run[i];
            && multiset(s.chain) == multiset(run[0].chain) && NoDup(s.chain)
            && s.first == run[0].first && (s.chain != [] ==> s.first == Some(s.chain[0]))
            && (forall t :: t in s.threads && s.threads[t].at == CPair ==>
                  && |s.threads[t].held| == 2
                  && Follows(s.chain, s.threads[t].held[0], s.threads[t].held[1]))
            && forall k :: 0 <= k < |s.chain| ==> LinkAt(s, k)
  {
    RunKeeps(run, i);
    var s := run[i];
    forall t | t in s.threads && s.threads[t].at == CPair
      ensures |s.threads[t].held| == 2 && Follows(s.chain, s.threads[t].held[0], s.threads[t].held[1])
    {
      PairFollows(s, t);
    }
    forall k | 0 <= k < |s.chain|
      ensures LinkAt(s, k)
    {
      LinksAre(s, k);
    }
  }
}
