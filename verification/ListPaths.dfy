/**
 Stretches of interleavings in which one thread goes on while the others wait outside: what it
 can do from label to label, up to whole rounds of the loops.
 */
module ListPaths {
  import opened Wrappers
  import opened ListProtocol
  import opened ListInvariant
  import opened ListProgress

  ghost predicate IsPath(path: seq<State>) {
    path != [] && forall i {:trigger Next(path[i - 1], path[i])} :: 0 < i < |path| ==> Next(path[i - 1], path[i])
  }

  /** There is an interleaving from s to s'. */
  ghost predicate Leads(s: State, s': State) {
    exists path: seq<State> :: IsPath(path) && path[0] == s && path[|path| - 1] == s'
  }

  lemma LeadsSelf(s: State)
    ensures Leads(s, s)
  {
    assert IsPath([s]) && [s][0] == s;
  }

  lemma LeadsOneMore(s: State, s1: State, s2: State)
    requires Leads(s, s1) && Next(s1, s2)
    ensures Leads(s, s2)
  {
    var path :| IsPath(path) && path[0] == s && path[|path| - 1] == s1;
    var more := path + [s2];
    forall i | 0 < i < |more|
      ensures Next(more[i - 1], more[i])
    {
      assert i < |path| ==> Next(path[i - 1], path[i]);
    }
    assert IsPath(more) && more[0] == s && more[|more| - 1] == s2;
  }

  lemma {:induction false} LeadsAlong(s: State, s1: State, path: seq<State>, n: nat)
    requires Leads(s, s1) && IsPath(path) && path[0] == s1 && n < |path|
    ensures Leads(s, path[n])
    decreases n
  {
    if n > 0 {
      LeadsAlong(s, s1, path, n - 1);
      assert Next(path[n - 1], path[n]);
      LeadsOneMore(s, path[n - 1], path[n]);
    }
  }

  lemma LeadsFar(s: State, s1: State, s2: State)
    requires Leads(s, s1) && Leads(s1, s2)
    ensures Leads(s, s2)
  {
    var path :| IsPath(path) && path[0] == s1 && path[|path| - 1] == s2;
    LeadsAlong(s, s1, path, |path| - 1);
  }

  lemma LeadsRun(s: State, s': State) returns (run: seq<State>)
    requires Init(s) && Leads(s, s')
    ensures IsRun(run) && run[0] == s && run[|run| - 1] == s'
  {
    run :| IsPath(run) && run[0] == s && run[|run| - 1] == s';
  }

  // ---- one thread among threads that hold nothing ----

  ghost predicate Lone(s: State, t: Tid) {
    && Inv(s) && t in s.threads
    && forall u :: u in s.threads && u != t ==> s.threads[u].held == []
  }

  /** A step after which t is th and the list is chain. */
  ghost predicate Moved(s: State, s': State, t: Tid, th: Thread, chain: seq<Node>) {
    && Inv(s') && Next(s, s')
    && s'.threads == s.threads[t := th] && s'.chain == chain && s'.first == s.first && s'.mutexes == s.mutexes
  }

  /** An interleaving in which only t has moved. */
  ghost predicate Came(s: State, s': State, t: Tid) {
    Leads(s, s') && Lone(s', t) && OnlyMoved(s, s', t)
  }

  ghost predicate OnlyMoved(s: State, s': State, t: Tid) {
    && t in s.threads && t in s'.threads && s'.threads == s.threads[t := s'.threads[t]]
    && s'.first == s.first && s'.mutexes == s.mutexes
  }

  lemma OnlyMovedOn(s: State, s1: State, s2: State, t: Tid)
    requires OnlyMoved(s, s1, t) && OnlyMoved(s1, s2, t)
    ensures OnlyMoved(s, s2, t)
  {
  }

  lemma CameSelf(s: State, t: Tid)
    requires Lone(s, t)
    ensures Came(s, s, t)
  {
    LeadsSelf(s);
  }

  lemma CameOn(s: State, s1: State, s2: State, t: Tid, th: Thread, chain: seq<Node>)
    requires Came(s, s1, t) && Moved(s1, s2, t, th, chain)
    ensures Came(s, s2, t)
  {
    hide Inv;
    LeadsOneMore(s, s1, s2);
    LoneOn(s1, s2, t);
    OnlyMovedOn(s, s1, s2, t);
  }

  lemma LoneOn(s1: State, s2: State, t: Tid)
    requires Lone(s1, t) && Inv(s2) && OnlyMoved(s1, s2, t)
    ensures Lone(s2, t)
  {
    forall u | u in s2.threads && u != t
      ensures s2.threads[u].held == []
    {
      assert s2.threads[u] == s1.threads[u];
    }
  }

  lemma CameFar(s: State, s1: State, s2: State, t: Tid)
    requires Came(s, s1, t) && Came(s1, s2, t)
    ensures Came(s, s2, t)
  {
    hide Inv;
    LeadsFar(s, s1, s2);
    OnlyMovedOn(s, s1, s2, t);
  }

  /** What the others do not hold, nobody holds. */
  lemma FreeNode(s: State, t: Tid, v: Node)
    requires Lone(s, t) && v in s.chain && v !in s.threads[t].held
    ensures v in s.locks && Free(s.locks[v])
  {
    if !Free(s.locks[v]) {
      var u := Holder(s, v);
    }
  }

  lemma StepMoves(s: State, s': State, t: Tid, th: Thread, chain: seq<Node>)
    requires Inv(s) && Step(s, s', t) && s'.threads == s.threads[t := th] && s'.chain == chain
    ensures Moved(s, s', t, th, chain)
  {
    StepKeeps(s, s', t);
  }

  /** The label a thread is at behind the lock it takes from the top of the loop. */
  predicate Tops(from: Label, at: Label) {
    (from == CTop && at == CHold) || (from == STop && (at == SHold || at == NHold))
  }

  lemma FirstSteps(s: State, s': State, t: Tid, v: Node, at: Label)
    requires t in s.threads && s.threads[t].saved == Some(v) && Tops(s.threads[t].at, at) && Acquire(s, s', t, v, at)
    ensures Step(s, s', t)
  {
  }

  lemma LockFirst(s: State, t: Tid, v: Node, at: Label) returns (s': State)
    requires Lone(s, t) && s.threads[t] == Thread(s.threads[t].at, [], Some(v)) && Tops(s.threads[t].at, at)
    ensures v in s.chain && Moved(s, s', t, Thread(at, [v], Some(v)), s.chain)
  {
    assert v in s.chain by {
      assert PlaceOk(s.chain, s.threads[t]);
    }
    FreeNode(s, t, v);
    s' := CanAcquire(s, t, v, at);
    FirstSteps(s, s', t, v, at);
    assert [] + [v] == [v];
    StepMoves(s, s', t, Thread(at, [v], Some(v)), s.chain);
  }

  lemma NextSteps(s: State, s': State, t: Tid, at: Label)
    requires t in s.threads && Continues(s.threads[t].at, at) && AcquireNext(s, s', t, at)
    ensures Step(s, s', t)
  {
  }

  lemma LockNext(s: State, t: Tid, v: Node, at: Label) returns (s': State)
    requires Lone(s, t) && Continues(s.threads[t].at, at) && s.threads[t].held != []
    requires Follows(s.chain, s.threads[t].held[|s.threads[t].held| - 1], v)
    ensures var th := s.threads[t]; Moved(s, s', t, Thread(at, th.held + [v], th.saved), s.chain)
  {
    var th := s.threads[t];
    assert Link(s, th.held[|th.held| - 1]) == Some(v) by {
      NextInList(s, t);
    }
    assert v !in th.held by {
      NextPlace(s, t, v, at);
    }
    FreeNode(s, t, v);
    s' := CanAcquire(s, t, v, at);
    NextSteps(s, s', t, at);
    StepMoves(s, s', t, Thread(at, th.held + [v], th.saved), s.chain);
  }

  /** Where a thread looks whether there is a next node, and where it then is. */
  predicate Looks(from: Label, more: Label) {
    (from == CHold && more == CWant) || (from == SHold && more == SWant) || (from == SHold2 && more == SWant3)
    || (from == NHold && more == NWant)
  }

  /** Where it is when there is none. */
  function NoneLeft(th: Thread): Thread
    requires th.at == SHold2 ==> |th.held| == 2
  {
    match th.at
    case CHold => Thread(CLeave, th.held, None)
    case SHold => Thread(SLeave, th.held, None)
    case SHold2 => Thread(SLeave, th.held, Some(th.held[1]))
    case _ => Thread(NLeave, th.held, th.saved)
  }

  lemma TestSteps(s: State, s': State, t: Tid, more: Label)
    requires t in s.threads && Looks(s.threads[t].at, more) && (s.threads[t].at == SHold2 ==> |s.threads[t].held| == 2)
    requires Test(s, s', t, more, NoneLeft(s.threads[t]))
    ensures Step(s, s', t)
  {
  }

  lemma Look(s: State, t: Tid, more: Label) returns (s': State)
    requires Lone(s, t) && Looks(s.threads[t].at, more)
    ensures var th := s.threads[t];
            && |th.held| == (if th.at == SHold2 then 2 else 1) && th.held[|th.held| - 1] in s.chain
            && Moved(s, s', t,
                     if Succ(s.chain, th.held[|th.held| - 1]) != None then th.(at := more) else NoneLeft(th), s.chain)
  {
    hide Inv;
    var th := s.threads[t];
    LooksAtLast(s, t, more);
    s' := CanTest(s, t, more, NoneLeft(th));
    TestSteps(s, s', t, more);
    StepMoves(s, s', t, s'.threads[t], s.chain);
  }

  lemma LooksAtLast(s: State, t: Tid, more: Label)
    requires Inv(s) && t in s.threads && Looks(s.threads[t].at, more)
    ensures var th := s.threads[t];
            && |th.held| == (if th.at == SHold2 then 2 else 1) && th.held[|th.held| - 1] in s.chain
            && Link(s, th.held[|th.held| - 1]) == Succ(s.chain, th.held[|th.held| - 1])
  {
    hide Inv;
    var th := s.threads[t];
    PlaceOf(s, t);
    ReadsList(s, t, th.held[|th.held| - 1]);
  }

  predicate Leaves(from: Label, done: Label) {
    (from == CLeave && done == CTop) || (from == SLeave && done == STop)
  }

  lemma LeaveSteps(s: State, s': State, t: Tid, done: Label)
    requires t in s.threads && Leaves(s.threads[t].at, done) && ReleaseFront(s, s', t, s.threads[t].at, done)
    ensures Step(s, s', t)
  {
  }

  lemma Leave(s: State, t: Tid, done: Label) returns (s': State)
    requires Lone(s, t) && Leaves(s.threads[t].at, done) && s.threads[t].held != []
    ensures var th := s.threads[t];
            Moved(s, s', t, Thread(if |th.held| > 1 then th.at else done, th.held[1..], th.saved), s.chain)
  {
    var th := s.threads[t];
    s' := CanReleaseFront(s, t, done);
    LeaveSteps(s, s', t, done);
    StepMoves(s, s', t, Thread(if |th.held| > 1 then th.at else done, th.held[1..], th.saved), s.chain);
  }

  /** All locks are given back. */
  lemma {:induction false} LeaveAll(s0: State, s: State, t: Tid, done: Label) returns (s': State)
    requires Came(s0, s, t) && Leaves(s.threads[t].at, done) && s.threads[t].held != []
    ensures Came(s0, s', t) && s'.threads[t] == Thread(done, [], s.threads[t].saved) && s'.chain == s.chain
    decreases |s.threads[t].held|
  {
    hide Inv;
    var th := s.threads[t];
    var s1 := Leave(s, t, done);
    CameOn(s0, s, s1, t, s1.threads[t], s.chain);
    if |th.held| == 1 {
      s' := s1;
    } else {
      s' := LeaveAll(s0, s1, t, done);
    }
  }

  // ---- steps that touch no lock ----

  /** Where t goes on without a lock and without a look at the next node. */
  ghost predicate Jumps(s: State, th: Thread, th': Thread) {
    match th.at
    case CEnter => s.first != None && Link(s, s.first.value) != None && th' == th.(at := CRestart)
    case SEnter => s.first != None && th' == Thread(STop, th.held, s.first)
    case STop => th.saved == None && th' == th.(at := SEnter)
    case CRestart => th' == Thread(CTop, th.held, s.first)
    case CTop => th.saved == None && th' == th.(at := CRestart)
    case CPair => |th.held| == 2 && th' == Thread(CLeave, th.held, Some(th.held[1]))
    case _ => false
  }

  lemma JumpSteps(s: State, s': State, t: Tid, th: Thread)
    requires t in s.threads && Jumps(s, s.threads[t], th) && Go(s, s', t, th)
    ensures Step(s, s', t)
  {
  }

  lemma Jump(s0: State, s: State, t: Tid, th: Thread) returns (s': State)
    requires Came(s0, s, t) && Jumps(s, s.threads[t], th)
    ensures Came(s0, s', t) && s'.threads[t] == th && s'.chain == s.chain
  {
    hide Inv;
    s' := s.(threads := s.threads[t := th]);
    JumpSteps(s, s', t, th);
    StepMoves(s, s', t, th, s.chain);
    CameOn(s0, s, s', t, th, s.chain);
  }

  // ---- locking neighbours ----

  lemma NoRepetition(s: State, t: Tid)
    requires Lone(s, t)
    ensures NoDup(s.chain)
  {
  }

  lemma Neighbouring(chain: seq<Node>, p: nat)
    requires NoDup(chain) && p < |chain|
    ensures IndexOf(chain, chain[p]) == p
    ensures p + 1 < |chain| ==> Follows(chain, chain[p], chain[p + 1])
    ensures p + 1 == |chain| ==> Succ(chain, chain[p]) == None
  {
    assert IndexOf(chain, chain[p]) == p;
  }

  /** Locks the node t is to go on from, and looks for the next one. */
  lemma LockAndLook(s0: State, s: State, t: Tid, p: nat, at: Label, more: Label) returns (s': State)
    requires Came(s0, s, t) && p < |s.chain| && Tops(s.threads[t].at, at) && Looks(at, more)
    requires s.threads[t] == Thread(s.threads[t].at, [], Some(s.chain[p]))
    ensures Came(s0, s', t) && s'.chain == s.chain
    ensures var th := Thread(at, [s.chain[p]], Some(s.chain[p]));
            s'.threads[t] == if p + 1 < |s.chain| then th.(at := more) else NoneLeft(th)
  {
    hide Inv;
    var v := s.chain[p];
    var s1 := LockFirst(s, t, v, at);
    CameOn(s0, s, s1, t, s1.threads[t], s.chain);
    s' := Look(s1, t, more);
    CameOn(s0, s1, s', t, s'.threads[t], s.chain);
    NoRepetition(s, t);
    Neighbouring(s.chain, p);
  }

  /** Locks the node behind the last one. */
  lemma LockMore(s0: State, s: State, t: Tid, p: nat, at: Label) returns (s': State)
    requires Came(s0, s, t) && Continues(s.threads[t].at, at) && s.threads[t].held != []
    requires p + 1 < |s.chain| && s.threads[t].held[|s.threads[t].held| - 1] == s.chain[p]
    ensures Came(s0, s', t) && s'.chain == s.chain
    ensures var th := s.threads[t]; s'.threads[t] == Thread(at, th.held + [s.chain[p + 1]], th.saved)
  {
    hide Inv;
    NoRepetition(s, t);
    Neighbouring(s.chain, p);
    s' := LockNext(s, t, s.chain[p + 1], at);
    CameOn(s0, s, s', t, s'.threads[t], s.chain);
  }

  // ---- a counter's round ----

  /** A counter locks a pair, compares it, and goes on from its second node. */
  lemma CompareRound(s0: State, s: State, t: Tid, p: nat) returns (s1: State, s': State)
    requires Came(s0, s, t) && p + 1 < |s.chain| && s.threads[t] == Thread(CTop, [], Some(s.chain[p]))
    ensures Came(s0, s1, t) && s1.threads[t].at == CPair && s1.threads[t].held == [s.chain[p], s.chain[p + 1]]
    ensures Came(s0, s', t) && s'.chain == s.chain && s'.threads[t] == Thread(CTop, [], Some(s.chain[p + 1]))
  {
    hide Inv;
    s1 := LockPair(s0, s, t, p);
    s' := Jump(s0, s1, t, Thread(CLeave, s1.threads[t].held, Some(s.chain[p + 1])));
    s' := LeaveAll(s0, s', t, CTop);
  }

  lemma LockPair(s0: State, s: State, t: Tid, p: nat) returns (s': State)
    requires Came(s0, s, t) && p + 1 < |s.chain| && s.threads[t] == Thread(CTop, [], Some(s.chain[p]))
    ensures Came(s0, s', t) && s'.chain == s.chain
    ensures s'.threads[t] == Thread(CPair, [s.chain[p], s.chain[p + 1]], Some(s.chain[p]))
  {
    hide Inv;
    var s1 := LockAndLook(s0, s, t, p, CHold, CWant);
    s' := LockMore(s0, s1, t, p, CPair);
  }

  /** At the last node a counter comes to the end of its pass. */
  lemma LastCompared(s0: State, s: State, t: Tid) returns (s': State)
    requires Came(s0, s, t) && s.chain != [] && s.threads[t] == Thread(CTop, [], Some(s.chain[|s.chain| - 1]))
    ensures Came(s0, s', t) && s'.chain == s.chain && s'.threads[t] == Thread(CTop, [], None)
  {
    hide Inv;
    var s1 := LockAndLook(s0, s, t, |s.chain| - 1, CHold, CWant);
    s' := LeaveAll(s0, s1, t, CTop);
  }

  // ---- a swapper's rounds ----

  lemma LockTwo(s0: State, s: State, t: Tid, p: nat) returns (s': State)
    requires Came(s0, s, t) && p + 1 < |s.chain| && s.threads[t] == Thread(STop, [], Some(s.chain[p]))
    ensures Came(s0, s', t) && s'.chain == s.chain
    ensures s'.threads[t] == Thread(SHold2, [s.chain[p], s.chain[p + 1]], Some(s.chain[p]))
  {
    hide Inv;
    var s1 := LockAndLook(s0, s, t, p, SHold, SWant);
    s' := LockMore(s0, s1, t, p, SHold2);
  }

  lemma LockThird(s0: State, s: State, t: Tid, p: nat) returns (s': State)
    requires Came(s0, s, t) && p + 2 < |s.chain|
    requires s.threads[t] == Thread(SHold2, [s.chain[p], s.chain[p + 1]], Some(s.chain[p]))
    ensures Came(s0, s', t) && s'.chain == s.chain
    ensures s'.threads[t] == Thread(SHold3, [s.chain[p], s.chain[p + 1], s.chain[p + 2]], Some(s.chain[p]))
  {
    hide Inv;
    var s1 := LookOn(s0, s, t, p + 1);
    s' := LockMore(s0, s1, t, p + 1, SHold3);
  }

  /** A swapper that will swap locks three neighbours. */
  lemma LockThree(s0: State, s: State, t: Tid, p: nat) returns (s': State)
    requires Came(s0, s, t) && p + 2 < |s.chain| && s.threads[t] == Thread(STop, [], Some(s.chain[p]))
    ensures Came(s0, s', t) && s'.chain == s.chain
    ensures s'.threads[t] == Thread(SHold3, [s.chain[p], s.chain[p + 1], s.chain[p + 2]], Some(s.chain[p]))
  {
    hide Inv;
    var s1 := LockTwo(s0, s, t, p);
    s' := LockThird(s0, s1, t, p);
  }

  lemma LookOn(s0: State, s: State, t: Tid, p: nat) returns (s': State)
    requires Came(s0, s, t) && 0 < p < |s.chain|
    requires s.threads[t] == Thread(SHold2, [s.chain[p - 1], s.chain[p]], Some(s.chain[p - 1]))
    ensures Came(s0, s', t) && s'.chain == s.chain
    ensures s'.threads[t] ==
            if p + 1 < |s.chain| then s.threads[t].(at := SWant3)
            else Thread(SLeave, s.threads[t].held, Some(s.chain[p]))
  {
    hide Inv;
    assert if p + 1 < |s.chain| then Succ(s.chain, s.chain[p]) != None else Succ(s.chain, s.chain[p]) == None by {
      NoRepetition(s, t);
      Neighbouring(s.chain, p);
    }
    var th := if p + 1 < |s.chain| then s.threads[t].(at := SWant3)
              else Thread(SLeave, s.threads[t].held, Some(s.chain[p]));
    s' := Look(s, t, SWant3);
    assert Moved(s, s', t, th, s.chain);
    CameOn(s0, s, s', t, th, s.chain);
  }

  /** Two nodes from the end a swapper only goes on. */
  lemma PassRound(s0: State, s: State, t: Tid, p: nat) returns (s': State)
    requires Came(s0, s, t) && p + 2 == |s.chain| && s.threads[t] == Thread(STop, [], Some(s.chain[p]))
    ensures Came(s0, s', t) && s'.chain == s.chain && s'.threads[t] == Thread(STop, [], Some(s.chain[p + 1]))
  {
    hide Inv;
    var s1 := LockTwo(s0, s, t, p);
    var s2 := LookOn(s0, s1, t, p + 1);
    s' := LeaveAll(s0, s2, t, STop);
  }

  /** At the last node it comes to the end of its pass. */
  lemma LastSwapped(s0: State, s: State, t: Tid) returns (s': State)
    requires Came(s0, s, t) && s.chain != [] && s.threads[t] == Thread(STop, [], Some(s.chain[|s.chain| - 1]))
    ensures Came(s0, s', t) && s'.chain == s.chain && s'.threads[t] == Thread(STop, [], None)
  {
    hide Inv;
    var s1 := LockLast(s0, s, t);
    s' := LeaveAll(s0, s1, t, STop);
  }

  lemma LockLast(s0: State, s: State, t: Tid) returns (s': State)
    requires Came(s0, s, t) && s.chain != [] && s.threads[t] == Thread(STop, [], Some(s.chain[|s.chain| - 1]))
    ensures Came(s0, s', t) && s'.chain == s.chain
    ensures s'.threads[t] == Thread(SLeave, [s.chain[|s.chain| - 1]], None)
  {
    hide Inv;
    var p := |s.chain| - 1;
    s' := LockAndLook(s0, s, t, p, SHold, SWant);
  }

  // ---- the writes of a swap ----

  lemma WriteSteps(s: State, s': State, t: Tid)
    requires t in s.threads && |s.threads[t].held| == 3
    requires var th := s.threads[t];
             || (th.at == SHold3 && Write(s, s', t, th.held[1], Link(s, th.held[2]), SWrote1, s.chain))
             || (th.at == SWrote1 && Write(s, s', t, th.held[2], Some(th.held[1]), SWrote2, s.chain))
             || (th.at == SWrote2 && WriteSwap(s, s', t))
             || (th.at == SWrote3 && Reread(s, s', t))
    ensures Step(s, s', t)
  {
  }

  /** One of the first two writes. */
  lemma WriteOnce(s0: State, s: State, t: Tid, k: nat, to: Option<Node>, at: Label) returns (s': State)
    requires Came(s0, s, t) && |s.threads[t].held| == 3 && k < 3
    requires var th := s.threads[t];
             || (th.at == SHold3 && k == 1 && to == Link(s, th.held[2]) && at == SWrote1)
             || (th.at == SWrote1 && k == 2 && to == Some(th.held[1]) && at == SWrote2)
    ensures Came(s0, s', t) && s'.chain == s.chain && s'.threads[t] == s.threads[t].(at := at)
  {
    HeldInChain(s, t, s.threads[t].held[k]);
    s' := CanWrite(s, t, s.threads[t].held[k], to, at, s.chain);
    WriteSteps(s, s', t);
    StepMoves(s, s', t, s.threads[t].(at := at), s.chain);
    CameOn(s0, s, s', t, s.threads[t].(at := at), s.chain);
  }

  lemma WriteThird(s0: State, s: State, t: Tid) returns (s': State)
    requires Came(s0, s, t) && s.threads[t].at == SWrote2
    ensures |s.threads[t].held| == 3 && s.threads[t].held[0] in s.chain
    ensures IndexOf(s.chain, s.threads[t].held[0]) + 2 < |s.chain|
    ensures Came(s0, s', t) && s'.chain == Swapped(s.chain, IndexOf(s.chain, s.threads[t].held[0]))
    ensures s'.threads[t] == s.threads[t].(at := SWrote3)
  {
    s' := CanWriteSwap(s, t);
    WriteSteps(s, s', t);
    StepMoves(s, s', t, s.threads[t].(at := SWrote3), s'.chain);
    CameOn(s0, s, s', t, s.threads[t].(at := SWrote3), s'.chain);
  }

  lemma ReadBack(s0: State, s: State, t: Tid) returns (s': State)
    requires Came(s0, s, t) && s.threads[t].at == SWrote3 && |s.threads[t].held| == 3
    ensures Came(s0, s', t) && s'.chain == s.chain
    ensures var held := s.threads[t].held; s'.threads[t] == Thread(SLeave, [held[0], held[2], held[1]], Some(held[2]))
  {
    s' := CanReread(s, t);
    WriteSteps(s, s', t);
    RereadPlace(s, t);
    var held := s.threads[t].held;
    StepMoves(s, s', t, Thread(SLeave, [held[0], held[2], held[1]], Some(held[2])), s.chain);
    CameOn(s0, s, s', t, s'.threads[t], s.chain);
  }

  /** Three nodes locked, the two behind the first change places. */
  lemma Exchange(s0: State, s: State, t: Tid, p: nat) returns (s': State)
    requires Came(s0, s, t) && p + 2 < |s.chain|
    requires s.threads[t] == Thread(SHold3, [s.chain[p], s.chain[p + 1], s.chain[p + 2]], Some(s.chain[p]))
    ensures Came(s0, s', t) && s'.chain == Swapped(s.chain, p)
    ensures s'.threads[t] == Thread(SLeave, [s.chain[p], s.chain[p + 2], s.chain[p + 1]], Some(s.chain[p + 2]))
  {
    hide Inv;
    var held := s.threads[t].held;
    var s1 := WriteOnce(s0, s, t, 1, Link(s, held[2]), SWrote1);
    var s2 := WriteOnce(s0, s1, t, 2, Some(held[1]), SWrote2);
    var s3 := WriteThird(s0, s2, t);
    assert IndexOf(s.chain, held[0]) == p by {
      NoRepetition(s, t);
      Neighbouring(s.chain, p);
    }
    s' := ReadBack(s0, s3, t);
  }

  /** A round with a swap: the two nodes behind position p change places, and the swapper goes on
      from the one that is now the first of them. */
  lemma SwapRound(s0: State, s: State, t: Tid, p: nat) returns (s': State)
    requires Came(s0, s, t) && p + 2 < |s.chain| && s.threads[t] == Thread(STop, [], Some(s.chain[p]))
    ensures Came(s0, s', t) && s'.chain == Swapped(s.chain, p)
    ensures s'.threads[t] == Thread(STop, [], Some(s.chain[p + 2]))
  {
    hide Inv;
    var s1 := LockThree(s0, s, t, p);
    var s2 := Exchange(s0, s1, t, p);
    s' := LeaveAll(s0, s2, t, STop);
  }

  // ---- a swapper that will not swap ----

  lemma BackSteps(s: State, s': State, t: Tid)
    requires t in s.threads && s.threads[t].at == NLeave && ReleaseBack(s, s', t, NLeave, STop)
    ensures Step(s, s', t)
  {
  }

  lemma {:induction false} LeaveBack(s0: State, s: State, t: Tid) returns (s': State)
    requires Came(s0, s, t) && s.threads[t].at == NLeave && s.threads[t].held != []
    ensures Came(s0, s', t) && s'.threads[t] == Thread(STop, [], s.threads[t].saved) && s'.chain == s.chain
    decreases |s.threads[t].held|
  {
    hide Inv;
    var th := s.threads[t];
    var n := |th.held| - 1;
    var s1 := CanReleaseBack(s, t);
    BackSteps(s, s1, t);
    StepMoves(s, s1, t, Thread(if n > 0 then NLeave else STop, th.held[..n], th.saved), s.chain);
    CameOn(s0, s, s1, t, s1.threads[t], s.chain);
    if n == 0 {
      s' := s1;
    } else {
      s' := LeaveBack(s0, s1, t);
    }
  }

  /** It locks its node and the next one and gives them back, and nothing has changed. */
  lemma IdleRound(s0: State, s: State, t: Tid, p: nat) returns (s1: State, s': State)
    requires Came(s0, s, t) && p + 1 < |s.chain| && s.threads[t] == Thread(STop, [], Some(s.chain[p]))
    ensures Came(s0, s1, t) && s1.threads[t].held == [s.chain[p], s.chain[p + 1]]
    ensures Came(s0, s', t) && s'.threads[t] == s.threads[t] && s'.chain == s.chain
  {
    hide Inv;
    var s2 := LockAndLook(s0, s, t, p, NHold, NWant);
    s1 := LockMore(s0, s2, t, p, NLeave);
    s' := LeaveBack(s0, s1, t);
  }
}
