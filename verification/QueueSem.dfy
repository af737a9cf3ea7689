/**
 Producers and consumers of a queue with two semaphores and a mutex. semFull starts at 1 and
 semEmpty at 0, so one token goes round: it is in one of the semaphores or with the one
 thread that is between its wait and its post.
 */
module QueueSem {
  import opened Wrappers
  import opened QueueValue

  type Tid = nat

  datatype Pc =
    | PWait              // queueAdd: sem_wait(semFull)
    | PLock
    | PBody              // mutex held
    | PUnlock(ok: bool)
    | PPost(ok: bool)    // sem_post(semEmpty), and queueDestroy if the queue was full
    | CWait              // queueGet: sem_wait(semEmpty)
    | CLock
    | CBody
    | CUnlock(ok: bool)
    | CPost(ok: bool)    // sem_post(semFull), and queueDestroy if the queue was empty

  /** added and delivered record what has gone in and out. */
  datatype State = State(
    q: Queue, semFull: nat, semEmpty: nat, mutex: Option<Tid>, threads: map<Tid, Pc>, destroyed: bool,
    added: seq<int>, delivered: seq<int>)

  predicate IsProducer(pc: Pc) {
    pc.PWait? || pc.PLock? || pc.PBody? || pc.PUnlock? || pc.PPost?
  }

  predicate Critical(pc: Pc) {
    pc.PBody? || pc.PUnlock? || pc.CBody? || pc.CUnlock?
  }

  /** Between its wait and its post. */
  predicate HasToken(pc: Pc) {
    !pc.PWait? && !pc.CWait?
  }

  function With(s: State, t: Tid, pc: Pc): State {
    s.(threads := s.threads[t := pc])
  }

  /** val is the value a producer adds. Nothing is said of what happens once the queue is destroyed. */
  ghost predicate Step(s: State, s': State, t: Tid, val: int) {
    t in s.threads && !s.destroyed &&
    match s.threads[t]
    case PWait => s.semFull > 0 && s' == With(s, t, PLock).(semFull := s.semFull - 1)
    case PLock => s.mutex == None && s' == With(s, t, PBody).(mutex := Some(t))
    case PBody =>
      var (q, ok) := Add(s.q, val);
      s' == With(s, t, PUnlock(ok)).(q := q, added := s.added + if ok then [val] else [])
    case PUnlock(ok) => s' == With(s, t, PPost(ok)).(mutex := None)
    case PPost(ok) => s' == With(s, t, PWait).(semEmpty := s.semEmpty + 1, destroyed := !ok)
    case CWait => s.semEmpty > 0 && s' == With(s, t, CLock).(semEmpty := s.semEmpty - 1)
    case CLock => s.mutex == None && s' == With(s, t, CBody).(mutex := Some(t))
    case CBody =>
      var (q, got) := Get(s.q);
      s' == With(s, t, CUnlock(got.Some?)).(q := q, delivered := s.delivered + if got.Some? then [got.value] else [])
    case CUnlock(ok) => s' == With(s, t, CPost(ok)).(mutex := None)
    case CPost(ok) => s' == With(s, t, CWait).(semFull := s.semFull + 1, destroyed := !ok)
  }

  ghost predicate Init(s: State, maxCount: nat) {
    && s.q == Empty(maxCount) && s.semFull == 1 && s.semEmpty == 0 && s.mutex == None && !s.destroyed
    && s.added == s.delivered == []
    && forall t :: t in s.threads ==> s.threads[t] == PWait || s.threads[t] == CWait
  }

  ghost predicate Next(s: State, s': State) {
    exists t, val :: Step(s, s', t, val)
  }

  ghost predicate IsRun(run: seq<State>, maxCount: nat) {
    && run != [] && Init(run[0], maxCount)
    && forall i :: 0 < i < |run| ==> Next(run[i - 1], run[i])
  }

  // ---- the token ----

  ghost function Holders(s: State): set<Tid> {
    set t | t in s.threads && HasToken(s.threads[t])
  }

  /** Where the token is says how full the queue is: full for the semaphore the consumers wait for. */
  ghost predicate Stage(s: State, t: Tid)
    requires t in s.threads
  {
    match s.threads[t]
    case PLock => |s.q.items| == 0
    case PBody => |s.q.items| == 0
    case PUnlock(ok) => ok && |s.q.items| == 1
    case PPost(ok) => ok && |s.q.items| == 1
    case CLock => |s.q.items| == 1
    case CBody => |s.q.items| == 1
    case CUnlock(ok) => ok && |s.q.items| == 0
    case CPost(ok) => ok && |s.q.items| == 0
    case _ => true
  }

  ghost predicate Inv(s: State, maxCount: nat) {
    && s.q.maxCount == maxCount && !s.destroyed
    && s.semFull + s.semEmpty + |Holders(s)| == 1
    && (s.semFull == 1 ==> |s.q.items| == 0) && (s.semEmpty == 1 ==> |s.q.items| == 1)
    && (forall t :: t in s.threads ==> Stage(s, t))
    && (s.mutex.Some? ==> s.mutex.value in s.threads)
    && (forall t :: t in s.threads ==> (Critical(s.threads[t]) <==> s.mutex == Some(t)))
    && s.q.addCount - s.q.getCount == |s.q.items|
  }

  lemma TwoOf<T>(x: set<T>, a: T, b: T)
    requires a in x && b in x
    ensures |x| >= 1 && (a != b ==> |x| >= 2)
  {
    var rest := x - {a};
    assert x == rest + {a};
    if a != b {
      assert rest == (rest - {b}) + {b};
    }
  }

  lemma OneHolder(s: State, maxCount: nat, t: Tid, u: Tid)
    requires Inv(s, maxCount) && t in Holders(s) && u in Holders(s)
    ensures t == u && s.semFull == s.semEmpty == 0
  {
    TwoOf(Holders(s), t, u);
  }

  /** A thread takes the token from a semaphore, puts it into one, or keeps it. */
  lemma TokenMoves(s: State, s': State, t: Tid, pc: Pc)
    requires t in s.threads && s'.threads == s.threads[t := pc]
    ensures |Holders(s')| == |Holders(s)| + (if HasToken(pc) then 1 else 0) - (if HasToken(s.threads[t]) then 1 else 0)
  {
    var rest := set u | u in s.threads && u != t && HasToken(s.threads[u]);
    assert Holders(s) == if HasToken(s.threads[t]) then rest + {t} else rest;
    assert Holders(s') == if HasToken(pc) then rest + {t} else rest;
  }

  /** A step of the thread that has the token leaves the others waiting. */
  lemma HolderKeeps(s: State, s': State, t: Tid, val: int, maxCount: nat)
    requires maxCount >= 1 && Inv(s, maxCount) && Step(s, s', t, val) && HasToken(s.threads[t])
    ensures Inv(s', maxCount)
  {
    TokenMoves(s, s', t, s'.threads[t]);
    forall u | u in s'.threads && u != t
      ensures !HasToken(s'.threads[u])
    {
      if HasToken(s.threads[u]) {
        OneHolder(s, maxCount, t, u);
      }
    }
    OneHolder(s, maxCount, t, t);
  }

  lemma WaiterKeeps(s: State, s': State, t: Tid, val: int, maxCount: nat)
    requires maxCount >= 1 && Inv(s, maxCount) && Step(s, s', t, val) && !HasToken(s.threads[t])
    ensures Inv(s', maxCount)
  {
    TokenMoves(s, s', t, s'.threads[t]);
    forall u | u in s'.threads && u != t
      ensures !HasToken(s'.threads[u])
    {
      if HasToken(s.threads[u]) {
        OneHolder(s, maxCount, u, u);
      }
    }
  }

  lemma InitInv(s: State, maxCount: nat)
    requires Init(s, maxCount)
    ensures Inv(s, maxCount)
  {
    assert Holders(s) == {};
  }

  /** The token is never lost nor doubled, the queue holds at most one item, adds and gets take
      turns, and neither branch that destroys the queue is ever taken. */
  lemma {:induction false} RunKeeps(run: seq<State>, maxCount: nat, i: nat)
    requires maxCount >= 1 && IsRun(run, maxCount) && i < |run|
    ensures Inv(run[i], maxCount)
    decreases i
  {
    if i == 0 {
      InitInv(run[0], maxCount);
    } else {
      RunKeeps(run, maxCount, i - 1);
      assert Next(run[i - 1], run[i]);
      var t, val :| Step(run[i - 1], run[i], t, val);
      if HasToken(run[i - 1].threads[t]) {
        HolderKeeps(run[i - 1], run[i], t, val, maxCount);
      } else {
        WaiterKeeps(run[i - 1], run[i], t, val, maxCount);
      }
    }
  }

  /** With a capacity of zero the very first queueAdd finds the queue full and destroys it. */
  lemma ZeroCapacityDestroys(s: State, p: Tid, val: int) returns (run: seq<State>)
    requires Init(s, 0) && p in s.threads && s.threads[p] == PWait
    ensures IsRun(run, 0) && run[0] == s && run[|run| - 1].destroyed
  {
    var s1 := With(s, p, PLock).(semFull := 0);
    var s2 := With(s1, p, PBody).(mutex := Some(p));
    var s3 := With(s2, p, PUnlock(false)).(q := Add(s2.q, val).0);
    var s4 := With(s3, p, PPost(false)).(mutex := None);
    var s5 := With(s4, p, PWait).(semEmpty := 1, destroyed := true);
    assert Step(s, s1, p, val) && Step(s1, s2, p, val) && Step(s2, s3, p, val) && Step(s3, s4, p, val)
           && Step(s4, s5, p, val);
    run := [s, s1, s2, s3, s4, s5];
  }

  /** The queue survives every interleaving exactly when it has room for something. */
  lemma SurvivesIffRoom(s: State, maxCount: nat, p: Tid)
    requires Init(s, maxCount) && p in s.threads && s.threads[p] == PWait
    ensures (forall run: seq<State>, i :: IsRun(run, maxCount) && run[0] == s && 0 <= i < |run| ==> !run[i].destroyed)
            <==> maxCount >= 1
  {
    if maxCount >= 1 {
      forall run: seq<State>, i | IsRun(run, maxCount) && run[0] == s && 0 <= i < |run|
        ensures !run[i].destroyed
      {
        RunKeeps(run, maxCount, i);
      }
    } else {
      var run := ZeroCapacityDestroys(s, p, 0);
      assert IsRun(run, maxCount) && run[0] == s && 0 <= |run| - 1 < |run|;
    }
  }

  // ---- first in, first out ----

  ghost predicate Fifo(s: State) {
    s.delivered + s.q.items == s.added
  }

  lemma StepFifo(s: State, s': State, t: Tid, val: int)
    requires Fifo(s) && Step(s, s', t, val)
    ensures Fifo(s')
    ensures s'.added == s.added || (s.threads[t].PBody? && s'.added == s.added + [val])
    ensures s.delivered <= s'.delivered
  {
    match s.threads[t]
    case PBody =>
      assert s.added + [] == s.added;
      assert s.delivered + (s.q.items + [val]) == s.added + [val];
    case CBody =>
      assert s.delivered + [] == s.delivered;
      if s.q.items != [] {
        assert s.q.items == [s.q.items[0]] + s.q.items[1..];
      }
    case _ =>
  }

  /** In every interleaving, whatever the capacity, consumers get the values producers put in, each
      once and in order. */
  lemma {:induction false} RunFifo(run: seq<State>, maxCount: nat, i: nat)
    requires IsRun(run, maxCount) && i < |run|
    ensures Fifo(run[i])
    decreases i
  {
    if i > 0 {
      RunFifo(run, maxCount, i - 1);
      assert Next(run[i - 1], run[i]);
      var t, val :| Step(run[i - 1], run[i], t, val);
      StepFifo(run[i - 1], run[i], t, val);
    }
  }

  // ---- progress ----

  /** Steps until the next add or get, for the thread that has the token. */
  function Left(pc: Pc): nat {
    match pc
    case PLock | CLock => 2
    case PBody | CBody => 1
    case PUnlock(_) | CUnlock(_) => 5
    case _ => 4
  }

  /** The same, counted from where the token is: three when a semaphore has it. */
  ghost function Distance(s: State): nat {
    if exists t :: t in Holders(s) then
      var t :| t in Holders(s);
      Left(s.threads[t])
    else 3
  }

  ghost predicate Moves(s: State, t: Tid)
    requires t in s.threads
  {
    s.threads[t].PBody? || s.threads[t].CBody?
  }

  lemma DistanceIs(s: State, maxCount: nat, t: Tid)
    requires Inv(s, maxCount) && t in Holders(s)
    ensures Distance(s) == Left(s.threads[t])
  {
    var u :| u in Holders(s) && Distance(s) == Left(s.threads[u]);
    OneHolder(s, maxCount, t, u);
  }

  /** Every step that is not an add or a get brings the next one nearer; an add or get leaves five steps to the next. */
  lemma EveryFifthStep(s: State, s': State, t: Tid, val: int, maxCount: nat)
    requires maxCount >= 1 && Inv(s, maxCount) && Step(s, s', t, val)
    ensures Distance(s') == if Moves(s, t) then 5 else Distance(s) - 1
    ensures Moves(s, t) ==> Distance(s) == 1
    ensures s'.q.addCount + s'.q.getCount == s.q.addCount + s.q.getCount + if Moves(s, t) then 1 else 0
  {
    if HasToken(s.threads[t]) {
      HolderKeeps(s, s', t, val, maxCount);
      DistanceIs(s, maxCount, t);
    } else {
      WaiterKeeps(s, s', t, val, maxCount);
      assert |Holders(s)| == 0;
    }
    if HasToken(s'.threads[t]) {
      DistanceIs(s', maxCount, t);
    } else {
      assert |Holders(s')| == 0;
    }
  }

  /** With a producer and a consumer around, some thread can always step. */
  lemma NeverStuck(s: State, maxCount: nat, p: Tid, c: Tid)
    requires maxCount >= 1 && Inv(s, maxCount)
    requires p in s.threads && IsProducer(s.threads[p]) && c in s.threads && !IsProducer(s.threads[c])
    ensures exists s' :: Next(s, s')
  {
    var t;
    if Holders(s) != {} {
      t :| t in Holders(s);
      if s.mutex.Some? {
        assert s.mutex.value in Holders(s);
        OneHolder(s, maxCount, t, s.mutex.value);
      }
    } else {
      t := if s.semFull == 1 then p else c;
      if s.semFull == 1 {
        assert p !in Holders(s);
      } else {
        assert c !in Holders(s);
      }
    }
    var s' := CanStep(s, t, 0);
    assert Step(s, s', t, 0) && Next(s, s');
  }

  lemma CanStep(s: State, t: Tid, val: int) returns (s': State)
    requires t in s.threads && !s.destroyed
    requires s.threads[t] == PWait ==> s.semFull > 0
    requires s.threads[t] == CWait ==> s.semEmpty > 0
    requires s.threads[t] == PLock || s.threads[t] == CLock ==> s.mutex == None
    ensures Step(s, s', t, val)
  {
    match s.threads[t]
    case PWait => s' := With(s, t, PLock).(semFull := s.semFull - 1);
    case PLock => s' := With(s, t, PBody).(mutex := Some(t));
    case PBody =>
      var (q, ok) := Add(s.q, val);
      s' := With(s, t, PUnlock(ok)).(q := q, added := s.added + if ok then [val] else []);
    case PUnlock(ok) => s' := With(s, t, PPost(ok)).(mutex := None);
    case PPost(ok) => s' := With(s, t, PWait).(semEmpty := s.semEmpty + 1, destroyed := !ok);
    case CWait => s' := With(s, t, CLock).(semEmpty := s.semEmpty - 1);
    case CLock => s' := With(s, t, CBody).(mutex := Some(t));
    case CBody =>
      var (q, got) := Get(s.q);
      s' := With(s, t, CUnlock(got.Some?)).(q := q, delivered := s.delivered + if got.Some? then [got.value] else []);
    case CUnlock(ok) => s' := With(s, t, CPost(ok)).(mutex := None);
    case CPost(ok) => s' := With(s, t, CWait).(semFull := s.semFull + 1, destroyed := !ok);
  }

  lemma StepKinds(s: State, s': State, t: Tid, val: int)
    requires Step(s, s', t, val)
    ensures s'.threads.Keys == s.threads.Keys
    ensures forall u :: u in s.threads ==> IsProducer(s'.threads[u]) == IsProducer(s.threads[u])
  {
  }

  lemma {:induction false} KindsKept(run: seq<State>, maxCount: nat, i: nat, t: Tid)
    requires IsRun(run, maxCount) && i < |run| && t in run[0].threads
    ensures t in run[i].threads && IsProducer(run[i].threads[t]) == IsProducer(run[0].threads[t])
    decreases i
  {
    if i > 0 {
      hide Step;
      KindsKept(run, maxCount, i - 1, t);
      assert Next(run[i - 1], run[i]);
      var u, val :| Step(run[i - 1], run[i], u, val);
      StepKinds(run[i - 1], run[i], u, val);
    }
  }

  /** No interleaving with a producer and a consumer comes to a stop. */
  lemma RunNeverStuck(run: seq<State>, maxCount: nat, i: nat, p: Tid, c: Tid)
    requires maxCount >= 1 && IsRun(run, maxCount) && i < |run|
    requires p in run[0].threads && run[0].threads[p] == PWait && c in run[0].threads && run[0].threads[c] == CWait
    ensures exists s' :: Next(run[i], s')
  {
    RunKeeps(run, maxCount, i);
    KindsKept(run, maxCount, i, p);
    KindsKept(run, maxCount, i, c);
    NeverStuck(run[i], maxCount, p, c);
  }
}
