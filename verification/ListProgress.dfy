/**
 Freedom from deadlock. A thread waits only for the node behind the last one it has locked, or,
 holding nothing, for the node it goes on from; whoever has that node locked is further down
 the list. So of the live threads one is always free to go, and nobody at all holds the lock
 it wants, whichever thread a lock prefers.
 */
module ListProgress {
  import opened Wrappers
  import opened ListProtocol
  import opened ListInvariant

  /** The node a thread is about to lock, if any. */
  function Wanted(s: State, th: Thread): Option<Node> {
    if th.at == CTop || th.at == STop then th.saved
    else if Wants(th.at) && th.held != [] then Link(s, th.held[|th.held| - 1])
    else None
  }

  /** Nothing stands in the way of the thread's next step. */
  ghost predicate Unobstructed(s: State, t: Tid)
    requires t in s.threads
  {
    var th := s.threads[t];
    && th.at != Stopped
    && (Wanted(s, th).Some? ==> Wanted(s, th).value in s.locks && Free(s.locks[Wanted(s, th).value]))
  }

  // ---- an unobstructed thread has a step ----

  lemma CanAcquire(s: State, t: Tid, v: Node, at: Label) returns (s': State)
    requires t in s.threads && v in s.locks && Free(s.locks[v])
    ensures Acquire(s, s', t, v, at)
  {
    var th, x := s.threads[t], Exclusive(s, at);
    s' := s.(locks := s.locks[v := WithLock(s.locks[v], t, x)],
             threads := s.threads[t := Thread(at, th.held + [v], th.saved)]);
  }

  lemma CanRelease(s: State, t: Tid, v: Node, held: seq<Node>, at: Label) returns (s': State)
    requires Inv(s) && t in s.threads && v in s.threads[t].held && IsCounter(at) == IsCounter(s.threads[t].at)
    ensures Release(s, s', t, v, held, at)
  {
    HeldInChain(s, t, v);
    assert LockIs(s, t, v);
    var x := Exclusive(s, at);
    s' := s.(locks := s.locks[v := WithoutLock(s.locks[v], t, x)],
             threads := s.threads[t := Thread(at, held, s.threads[t].saved)]);
  }

  lemma CanAcquireNext(s: State, t: Tid, at: Label) returns (s': State)
    requires Inv(s) && t in s.threads && Wants(s.threads[t].at) && Unobstructed(s, t)
    ensures AcquireNext(s, s', t, at)
  {
    var th := s.threads[t];
    assert PlaceOk(s.chain, th);
    ReadsList(s, t, th.held[|th.held| - 1]);
    s' := CanAcquire(s, t, Wanted(s, th).value, at);
  }

  lemma CanTest(s: State, t: Tid, more: Label, last: Thread) returns (s': State)
    requires t in s.threads && s.threads[t].held != []
    ensures Test(s, s', t, more, last)
  {
    var th := s.threads[t];
    var to := if Link(s, th.held[|th.held| - 1]) != None then th.(at := more) else last;
    s' := s.(threads := s.threads[t := to]);
  }

  lemma CanReleaseFront(s: State, t: Tid, done: Label) returns (s': State)
    requires Inv(s) && t in s.threads && s.threads[t].held != []
    requires IsCounter(done) == IsCounter(s.threads[t].at)
    ensures ReleaseFront(s, s', t, s.threads[t].at, done)
  {
    var th := s.threads[t];
    s' := CanRelease(s, t, th.held[0], th.held[1..], if |th.held| > 1 then th.at else done);
  }

  lemma CanReleaseBack(s: State, t: Tid) returns (s': State)
    requires Inv(s) && t in s.threads && s.threads[t].held != [] && s.threads[t].at == NLeave
    ensures ReleaseBack(s, s', t, NLeave, STop)
  {
    var held := s.threads[t].held;
    var n := |held| - 1;
    s' := CanRelease(s, t, held[n], held[..n], if n > 0 then NLeave else STop);
  }

  lemma CanWrite(s: State, t: Tid, v: Node, to: Option<Node>, at: Label, chain: seq<Node>) returns (s': State)
    requires t in s.threads && v in s.next
    ensures Write(s, s', t, v, to, at, chain)
  {
    s' := s.(next := s.next[v := to], threads := s.threads[t := s.threads[t].(at := at)], chain := chain);
  }

  lemma CanWriteSwap(s: State, t: Tid) returns (s': State)
    requires Inv(s) && t in s.threads && s.threads[t].at == SWrote2
    ensures WriteSwap(s, s', t)
  {
    var th := s.threads[t];
    assert PlaceOk(s.chain, th);
    SwapChain(s.chain, th.held[0], th.held[1], th.held[2]);
    s' := CanWrite(s, t, th.held[0], Some(th.held[2]), SWrote3, Swapped(s.chain, IndexOf(s.chain, th.held[0])));
  }

  lemma CanReread(s: State, t: Tid) returns (s': State)
    requires Inv(s) && t in s.threads && s.threads[t].at == SWrote3
    ensures Reread(s, s', t)
  {
    RereadPlace(s, t);
    var held := s.threads[t].held;
    s' := s.(threads := s.threads[t := Thread(SLeave, [held[0], held[2], held[1]], Some(held[2]))]);
  }

  lemma CounterCan(s: State, t: Tid) returns (s': State)
    requires Inv(s) && t in s.threads && IsCounter(s.threads[t].at) && Unobstructed(s, t)
    ensures CounterStep(s, s', t)
  {
    var th := s.threads[t];
    assert PlaceOk(s.chain, th);
    match th.at
    case CEnter =>
      var stop := s.first == None || Link(s, s.first.value) == None;
      s' := s.(threads := s.threads[t := th.(at := if stop then Stopped else CRestart)]);
    case CRestart =>
      s' := s.(threads := s.threads[t := Thread(CTop, th.held, s.first)]);
    case CTop =>
      if th.saved == None {
        s' := s.(threads := s.threads[t := th.(at := CRestart)]);
      } else {
        s' := CanAcquire(s, t, th.saved.value, CHold);
      }
    case CHold =>
      s' := CanTest(s, t, CWant, Thread(CLeave, th.held, None));
    case CWant =>
      s' := CanAcquireNext(s, t, CPair);
    case CPair =>
      s' := s.(threads := s.threads[t := Thread(CLeave, th.held, Some(th.held[1]))]);
    case CLeave =>
      s' := CanReleaseFront(s, t, CTop);
  }

  lemma SwapperCan(s: State, t: Tid) returns (s': State)
    requires Inv(s) && t in s.threads && !IsCounter(s.threads[t].at) && Unobstructed(s, t)
    ensures SwapperStep(s, s', t)
  {
    var th := s.threads[t];
    assert PlaceOk(s.chain, th);
    match th.at
    case SEnter =>
      s' := s.(threads := s.threads[t := th.(at := Stopped)]);
    case STop =>
      if th.saved == None {
        s' := s.(threads := s.threads[t := th.(at := SEnter)]);
      } else {
        s' := CanAcquire(s, t, th.saved.value, SHold);
      }
    case SHold =>
      s' := CanTest(s, t, SWant, Thread(SLeave, th.held, None));
    case SWant =>
      s' := CanAcquireNext(s, t, SHold2);
    case SHold2 =>
      s' := CanTest(s, t, SWant3, Thread(SLeave, th.held, Some(th.held[1])));
    case SWant3 =>
      s' := CanAcquireNext(s, t, SHold3);
    case SHold3 =>
      HeldInChain(s, t, th.held[1]);
      s' := CanWrite(s, t, th.held[1], Link(s, th.held[2]), SWrote1, s.chain);
    case SWrote1 =>
      HeldInChain(s, t, th.held[2]);
      s' := CanWrite(s, t, th.held[2], Some(th.held[1]), SWrote2, s.chain);
    case SWrote2 =>
      s' := CanWriteSwap(s, t);
    case SWrote3 =>
      s' := CanReread(s, t);
    case SLeave =>
      s' := CanReleaseFront(s, t, STop);
    case NHold =>
      s' := CanTest(s, t, NWant, Thread(NLeave, th.held, th.saved));
    case NWant =>
      s' := CanAcquireNext(s, t, NLeave);
    case NLeave =>
      s' := CanReleaseBack(s, t);
  }

  // ---- and there is one ----

  /** How far down the list a thread's locks reach. */
  ghost function Reach(s: State, t: Tid): (r: nat)
    requires Inv(s) && t in s.threads
    ensures r <= |s.chain|
  {
    var th := s.threads[t];
    assert PlaceOk(s.chain, th);
    var order := Order(th);
    if order == [] then 0
    else
      StretchIndex(s.chain, order);
      IndexOf(s.chain, order[|order| - 1]) + 1
  }

  lemma ReachBehind(s: State, t: Tid, v: Node)
    requires Inv(s) && t in s.threads && v in s.threads[t].held
    ensures v in s.chain && IndexOf(s.chain, v) < Reach(s, t)
  {
    HeldInChain(s, t, v);
    OrderReaches(s.chain, s.threads[t], v);
  }

  lemma OrderReaches(chain: seq<Node>, th: Thread, v: Node)
    requires NoDup(chain) && PlaceOk(chain, th) && v in th.held && v in chain
    ensures var order := Order(th);
            order != [] && order[|order| - 1] in chain && IndexOf(chain, v) <= IndexOf(chain, order[|order| - 1])
  {
    var order := Order(th);
    StretchIndex(chain, order);
    assert v in order;
  }

  lemma WantedBehind(s: State, t: Tid)
    requires Inv(s) && t in s.threads && Wanted(s, s.threads[t]).Some?
    ensures var v := Wanted(s, s.threads[t]).value;
            v in s.chain && v in s.locks && Reach(s, t) <= IndexOf(s.chain, v)
  {
    var th := s.threads[t];
    if Wants(th.at) {
      NextInList(s, t);
      FollowsIndex(s.chain, th.held[|th.held| - 1], Wanted(s, th).value);
    } else {
      assert PlaceOk(s.chain, th);
    }
  }

  lemma Holder(s: State, v: Node) returns (u: Tid)
    requires Inv(s) && v in s.locks && !Free(s.locks[v])
    ensures u in s.threads && v in s.threads[u].held
  {
    var l := s.locks[v];
    assert LockOk(s, v);
    if l.writer.Some? {
      u := l.writer.value;
    } else {
      u :| u in l.readers;
    }
    assert LockIs(s, u, v);
  }

  /** Whoever stands in a thread's way reaches further down the list. */
  lemma FurtherThread(s: State, t: Tid) returns (w: Tid)
    requires Inv(s) && t in s.threads && s.threads[t].at != Stopped && !Unobstructed(s, t)
    ensures w in s.threads && s.threads[w].at != Stopped && Reach(s, t) < Reach(s, w)
  {
    WantedBehind(s, t);
    var v := Wanted(s, s.threads[t]).value;
    w := Holder(s, v);
    ReachBehind(s, w, v);
    HeldInChain(s, w, v);
  }

  /** Down the list from any live thread there is one that nothing obstructs. */
  lemma {:induction false} FreeThread(s: State, t: Tid) returns (u: Tid)
    requires Inv(s) && t in s.threads && s.threads[t].at != Stopped
    ensures u in s.threads && Unobstructed(s, u)
    decreases |s.chain| - Reach(s, t)
  {
    if Unobstructed(s, t) {
      u := t;
    } else {
      var w := FurtherThread(s, t);
      u := FreeThread(s, w);
    }
  }

  /** In no reachable state with a live thread are all threads stuck: some thread wants no lock,
      or one that nobody holds, and it has a step. */
  lemma NoDeadlock(run: seq<State>, i: nat)
    requires IsRun(run) && i < |run|
    requires exists t :: t in run[i].threads && run[i].threads[t].at != Stopped
    ensures exists u :: u in run[i].threads && Unobstructed(run[i], u) && exists s' :: Step(run[i], s', u)
  {
    RunKeeps(run, i);
    var s := run[i];
    var t :| t in s.threads && s.threads[t].at != Stopped;
    var u := FreeThread(s, t);
    var s' := Unhindered(s, u);
  }

  // ---- who waits for whom ----

  /** Of the threads that hold v none is in the way of t: none holds it at all or, in the build with
      read-write locks, t counts and so do they. */
  ghost predicate NoneInTheWay(s: State, t: Tid, v: Node)
    requires t in s.threads
  {
    forall u :: u in s.threads && v in s.threads[u].held ==>
      !Exclusive(s, s.threads[t].at) && !Exclusive(s, s.threads[u].at)
  }

  lemma CanLockIff(s: State, t: Tid, v: Node)
    requires Inv(s) && t in s.threads && v in s.locks
    ensures CanLock(s.locks[v], Exclusive(s, s.threads[t].at)) <==> NoneInTheWay(s, t, v)
  {
    var l, x := s.locks[v], Exclusive(s, s.threads[t].at);
    assert LockOk(s, v);
    if !Free(l) {
      var u := Holder(s, v);
      assert LockIs(s, u, v);
      if l.writer.Some? {
        assert LockIs(s, l.writer.value, v);
      }
    }
    forall u | u in s.threads && v in s.threads[u].held
      ensures CanLock(l, x) ==> !x && !Exclusive(s, s.threads[u].at)
    {
      assert LockIs(s, u, v);
    }
  }

  lemma StepLocks(s: State, s': State, t: Tid)
    requires Inv(s) && Step(s, s', t) && Wanted(s, s.threads[t]).Some?
    ensures var v := Wanted(s, s.threads[t]).value;
            v in s.locks && CanLock(s.locks[v], Exclusive(s, s.threads[t].at))
  {
    hide Inv;
    assert PlaceOk(s.chain, s.threads[t]) by {
      PlaceOf(s, t);
    }
  }

  lemma LockGoesOn(s: State, t: Tid) returns (s': State)
    requires Inv(s) && t in s.threads && Wanted(s, s.threads[t]).Some?
    requires var v := Wanted(s, s.threads[t]).value;
             v in s.locks && CanLock(s.locks[v], Exclusive(s, s.threads[t].at))
    ensures Step(s, s', t)
  {
    PlaceOf(s, t);
    hide Inv;
    var th := s.threads[t];
    var at := match th.at
              case CTop => CHold
              case CWant => CPair
              case STop => SHold
              case SWant => SHold2
              case SWant3 => SHold3
              case _ => NLeave;
    var v, x := Wanted(s, th).value, Exclusive(s, at);
    s' := s.(locks := s.locks[v := WithLock(s.locks[v], t, x)],
             threads := s.threads[t := Thread(at, th.held + [v], th.saved)]);
    assert Acquire(s, s', t, v, at);
  }

  /** A live thread can go on exactly if it wants no lock, or nobody is in its way: counters under
      read-write locks wait for swappers only, never for one another. */
  lemma GoesOnIff(run: seq<State>, i: nat, t: Tid)
    requires IsRun(run) && i < |run| && t in run[i].threads && run[i].threads[t].at != Stopped
    ensures var s := run[i]; var want := Wanted(s, s.threads[t]);
            (exists s' :: Step(s, s', t)) <==> want.None? || NoneInTheWay(s, t, want.value)
  {
    RunKeeps(run, i);
    var s := run[i];
    var want := Wanted(s, s.threads[t]);
    hide Inv, Step;
    if want.None? {
      var s' := Unhindered(s, t);
    } else {
      WantedBehind(s, t);
      CanLockIff(s, t, want.value);
      if NoneInTheWay(s, t, want.value) {
        var s' := LockGoesOn(s, t);
      }
      forall s' | Step(s, s', t)
        ensures NoneInTheWay(s, t, want.value)
      {
        StepLocks(s, s', t);
      }
    }
  }

  lemma Unhindered(s: State, t: Tid) returns (s': State)
    requires Inv(s) && t in s.threads && Unobstructed(s, t)
    ensures Step(s, s', t)
  {
    if IsCounter(s.threads[t].at) {
      s' := CounterCan(s, t);
    } else {
      s' := SwapperCan(s, t);
    }
  }
}
