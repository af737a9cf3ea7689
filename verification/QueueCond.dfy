/**
 Any number of producers and consumers taking turns with a flag, a mutex and one condition
 variable. Waiting gives up the mutex and goes to sleep in one step; a signal wakes one of the
 sleeping threads, whichever; a sleeper may also wake up for no reason. queueInit leaves the
 flag unset, so its first value is a parameter.
 */
module QueueCond {
  import opened Wrappers
  import opened QueueValue

  type Tid = nat

  const ALLOW_SHARE := 0
  const PROHIBIT_SHARE := 1

  datatype Role = Producer | Consumer

  datatype Pc =
    | Lock    // the mutex to be taken, on entry
    | Check   // the condition to be tested, mutex held
    | Asleep  // in pthread_cond_wait
    | Awake   // still in pthread_cond_wait, the mutex to be taken again
    | Act     // the item to be put in or taken out
    | Signal
    | Unlock

  datatype Client = Client(role: Role, pc: Pc)

  /** added and delivered record what has gone in and out. */
  datatype State = State(
    q: Queue, flag: int, mutex: Option<Tid>, threads: map<Tid, Client>, added: seq<int>, delivered: seq<int>)

  function With(s: State, t: Tid, pc: Pc): State
    requires t in s.threads
  {
    s.(threads := s.threads[t := Client(s.threads[t].role, pc)])
  }

  /** The loop condition: stay waiting. */
  predicate MustWait(s: State, role: Role) {
    if role == Producer then |s.q.items| == s.q.maxCount || s.flag == PROHIBIT_SHARE
    else |s.q.items| == 0 || s.flag == ALLOW_SHARE
  }

  /** queueGet counts its attempt before it waits, queueAdd behind the wait. */
  function Entered(s: State, role: Role): State {
    if role == Producer then s else s.(q := s.q.(getAttempts := s.q.getAttempts + 1))
  }

  predicate CanAct(s: State, role: Role) {
    if role == Producer then |s.q.items| <= s.q.maxCount else s.q.items != []
  }

  /** An item put in or taken out, and the turn passed on. */
  function Acted(s: State, role: Role, val: int): State
    requires CanAct(s, role)
  {
    if role == Producer
    then s.(q := Put(s.q.(addAttempts := s.q.addAttempts + 1), val), flag := PROHIBIT_SHARE,
            added := s.added + [val])
    else s.(q := Take(s.q), flag := ALLOW_SHARE, delivered := s.delivered + [s.q.items[0]])
  }

  predicate Sleeps(s: State, t: Tid) {
    t in s.threads && s.threads[t].pc == Asleep
  }

  ghost predicate Signals(s: State, s': State, t: Tid)
    requires t in s.threads
  {
    || (s' == With(s, t, Unlock) && forall u :: !Sleeps(s, u))
    || exists u :: Sleeps(s, u) && s' == With(With(s, u, Awake), t, Unlock)
  }

  /** A step of t other than waking up for no reason; val is what a producer puts in. */
  ghost predicate Step(s: State, s': State, t: Tid, val: int) {
    t in s.threads &&
    var role := s.threads[t].role;
    match s.threads[t].pc
    case Lock => s.mutex == None && s' == With(Entered(s, role), t, Check).(mutex := Some(t))
    case Awake => s.mutex == None && s' == With(s, t, Check).(mutex := Some(t))
    case Check => s' == if MustWait(s, role) then With(s, t, Asleep).(mutex := None) else With(s, t, Act)
    case Act => CanAct(s, role) && s' == With(Acted(s, role, val), t, Signal)
    case Signal => Signals(s, s', t)
    case Unlock => s' == With(s, t, Lock).(mutex := None)
    case Asleep => false
  }

  ghost predicate Spurious(s: State, s': State, t: Tid) {
    Sleeps(s, t) && s' == With(s, t, Awake)
  }

  ghost predicate Init(s: State, maxCount: nat, flag: int) {
    && s.q == Empty(maxCount) && s.flag == flag && s.mutex == None && s.added == s.delivered == []
    && forall t :: t in s.threads ==> s.threads[t].pc == Lock
  }

  ghost predicate Next(s: State, s': State) {
    (exists t, val :: Step(s, s', t, val)) || exists t :: Spurious(s, s', t)
  }

  ghost predicate IsRun(run: seq<State>, maxCount: nat, flag: int) {
    && run != [] && Init(run[0], maxCount, flag)
    && forall i {:trigger Next(run[i - 1], run[i])} :: 0 < i < |run| ==> Next(run[i - 1], run[i])
  }

  predicate HasMutex(pc: Pc) {
    pc.Check? || pc.Act? || pc.Signal? || pc.Unlock?
  }

  ghost predicate Exclusion(s: State) {
    && (s.mutex.Some? ==> s.mutex.value in s.threads)
    && forall t :: t in s.threads ==> (HasMutex(s.threads[t].pc) <==> s.mutex == Some(t))
  }

  // ---- taking turns ----

  /** What a caller has to see to: capacity, and the initial flag that queueInit does not set. */
  predicate WellStarted(maxCount: nat, flag: int) {
    maxCount >= 1 && flag != PROHIBIT_SHARE
  }

  /** Before it acts a producer finds the queue empty and behind it not; a consumer the other way round. */
  predicate Turn(s: State, c: Client) {
    && (c.pc == Act ==> |s.q.items| == if c.role == Producer then 0 else 1)
    && (c.pc == Signal ==> |s.q.items| == if c.role == Producer then 1 else 0)
  }

  /** One item at most, adds and gets taking turns: the flag forbids an add exactly when an item is in. */
  ghost predicate Inv(s: State, maxCount: nat) {
    && s.q.maxCount == maxCount && |s.q.items| <= 1
    && (|s.q.items| == 1 <==> s.flag == PROHIBIT_SHARE)
    && s.q.addCount - s.q.getCount == |s.q.items|
    && Exclusion(s)
    && forall t :: t in s.threads ==> Turn(s, s.threads[t])
  }

  lemma StepKeeps(s: State, s': State, t: Tid, val: int, maxCount: nat)
    requires maxCount >= 1 && Inv(s, maxCount) && Step(s, s', t, val)
    ensures Inv(s', maxCount)
  {
    assert HasMutex(s.threads[t].pc) <==> s.mutex == Some(t);
    assert Turn(s, s.threads[t]);
    forall u | u in s'.threads
      ensures Turn(s', s'.threads[u])
    {
      assert Turn(s, s.threads[u]) && (HasMutex(s.threads[u].pc) <==> s.mutex == Some(u));
    }
  }

  lemma SpuriousKeeps(s: State, s': State, t: Tid, maxCount: nat)
    requires Inv(s, maxCount) && Spurious(s, s', t)
    ensures Inv(s', maxCount)
  {
    forall u | u in s'.threads
      ensures Turn(s', s'.threads[u])
    {
      assert Turn(s, s.threads[u]);
    }
  }

  lemma NextKeeps(s: State, s': State, maxCount: nat)
    requires maxCount >= 1 && Inv(s, maxCount) && Next(s, s')
    ensures Inv(s', maxCount)
  {
    if t, val :| Step(s, s', t, val) {
      StepKeeps(s, s', t, val, maxCount);
    } else {
      var t :| Spurious(s, s', t);
      SpuriousKeeps(s, s', t, maxCount);
    }
  }

  /** In every interleaving of any number of producers and consumers adds and gets take turns. */
  lemma {:induction false} RunKeeps(run: seq<State>, maxCount: nat, flag: int, i: nat)
    requires WellStarted(maxCount, flag) && IsRun(run, maxCount, flag) && i < |run|
    ensures Inv(run[i], maxCount)
    decreases i
  {
    if i > 0 {
      RunKeeps(run, maxCount, flag, i - 1);
      assert Next(run[i - 1], run[i]);
      NextKeeps(run[i - 1], run[i], maxCount);
    }
  }

  // ---- first in, first out ----

  ghost predicate Fifo(s: State) {
    s.delivered + s.q.items == s.added
  }

  lemma StepFifo(s: State, s': State, t: Tid, val: int)
    requires Fifo(s) && Step(s, s', t, val)
    ensures Fifo(s')
    ensures s'.added == s.added + (if IsAct(s, t) && s.threads[t].role == Producer then [val] else [])
    ensures |s'.delivered| == |s.delivered| + (if IsAct(s, t) && s.threads[t].role == Consumer then 1 else 0)
  {
    assert s.added + [] == s.added;
    if s.threads[t].pc == Act {
      if s.threads[t].role == Producer {
        assert s.delivered + (s.q.items + [val]) == s.added + [val];
      } else {
        assert s.q.items == [s.q.items[0]] + s.q.items[1..];
      }
    }
  }

  lemma NextFifo(s: State, s': State)
    requires Fifo(s) && Next(s, s')
    ensures Fifo(s')
  {
    if t, val :| Step(s, s', t, val) {
      StepFifo(s, s', t, val);
    }
  }

  /** In every interleaving, however started, consumers get the values producers put in, each once
      and in order. */
  lemma {:induction false} RunFifo(run: seq<State>, maxCount: nat, flag: int, i: nat)
    requires IsRun(run, maxCount, flag) && i < |run|
    ensures Fifo(run[i])
    decreases i
  {
    if i > 0 {
      RunFifo(run, maxCount, flag, i - 1);
      assert Next(run[i - 1], run[i]);
      NextFifo(run[i - 1], run[i]);
    }
  }

  // ---- one producer and one consumer ----

  ghost predicate IsPair(threads: map<Tid, Client>, p: Tid, c: Tid) {
    && p in threads && c in threads && threads.Keys == {p, c}
    && threads[p].role == Producer && threads[c].role == Consumer
  }

  /** A sleeper whose turn it is has its wake-up pending. */
  ghost predicate Pending(s: State, p: Tid, c: Tid)
    requires IsPair(s.threads, p, c)
  {
    && (s.threads[p].pc == Asleep && s.q.items == [] ==> s.threads[c].pc == Signal)
    && (s.threads[c].pc == Asleep && s.q.items != [] ==> s.threads[p].pc == Signal)
  }

  lemma PendingKept(s: State, s': State, t: Tid, val: int, maxCount: nat, p: Tid, c: Tid)
    requires maxCount >= 1 && Inv(s, maxCount) && IsPair(s.threads, p, c) && Pending(s, p, c) && Step(s, s', t, val)
    ensures IsPair(s'.threads, p, c) && Pending(s', p, c)
  {
    assert t == p || t == c;
    assert HasMutex(s.threads[p].pc) <==> s.mutex == Some(p);
    assert HasMutex(s.threads[c].pc) <==> s.mutex == Some(c);
    assert Turn(s, s.threads[p]) && Turn(s, s.threads[c]);
    assert s.threads[t].pc == Signal ==> forall u :: Sleeps(s, u) ==> u == if t == p then c else p;
    assert Sleeps(s, if t == p then c else p) || s.threads[if t == p then c else p].pc != Asleep;
  }

  lemma NextPending(s: State, s': State, maxCount: nat, p: Tid, c: Tid)
    requires maxCount >= 1 && Inv(s, maxCount) && IsPair(s.threads, p, c) && Pending(s, p, c) && Next(s, s')
    ensures IsPair(s'.threads, p, c) && Pending(s', p, c)
  {
    if t, val :| Step(s, s', t, val) {
      PendingKept(s, s', t, val, maxCount, p, c);
    }
  }

  lemma {:induction false} RunPending(run: seq<State>, maxCount: nat, flag: int, i: nat, p: Tid, c: Tid)
    requires WellStarted(maxCount, flag) && IsRun(run, maxCount, flag) && i < |run| && IsPair(run[0].threads, p, c)
    ensures IsPair(run[i].threads, p, c) && Pending(run[i], p, c)
    decreases i
  {
    if i > 0 {
      RunPending(run, maxCount, flag, i - 1, p, c);
      RunKeeps(run, maxCount, flag, i - 1);
      assert Next(run[i - 1], run[i]);
      NextPending(run[i - 1], run[i], maxCount, p, c);
    }
  }

  /** Some thread has a step that does not depend on waking up for no reason. */
  ghost predicate CanGo(s: State) {
    exists s', t, val :: Step(s, s', t, val)
  }

  lemma CanStep(s: State, t: Tid, val: int) returns (s': State)
    requires t in s.threads && s.threads[t].pc != Asleep
    requires s.threads[t].pc == Lock || s.threads[t].pc == Awake ==> s.mutex == None
    requires s.threads[t].pc == Act ==> CanAct(s, s.threads[t].role)
    ensures Step(s, s', t, val)
  {
    var role := s.threads[t].role;
    match s.threads[t].pc
    case Lock => s' := With(Entered(s, role), t, Check).(mutex := Some(t));
    case Awake => s' := With(s, t, Check).(mutex := Some(t));
    case Check => s' := if MustWait(s, role) then With(s, t, Asleep).(mutex := None) else With(s, t, Act);
    case Act => s' := With(Acted(s, role, val), t, Signal);
    case Signal =>
      if u :| Sleeps(s, u) {
        s' := With(With(s, u, Awake), t, Unlock);
      } else {
        s' := With(s, t, Unlock);
      }
    case Unlock => s' := With(s, t, Lock).(mutex := None);
  }

  /** No wake-up is lost: the two threads are never both asleep, and one of them can go on. */
  lemma PairGoes(s: State, maxCount: nat, p: Tid, c: Tid)
    requires maxCount >= 1 && Inv(s, maxCount) && IsPair(s.threads, p, c) && Pending(s, p, c)
    ensures !(Sleeps(s, p) && Sleeps(s, c)) && CanGo(s)
  {
    var t := if s.mutex.Some? then s.mutex.value else if Sleeps(s, p) then c else p;
    assert HasMutex(s.threads[t].pc) <==> s.mutex == Some(t);
    assert Turn(s, s.threads[t]);
    var s' := CanStep(s, t, 0);
  }

  /** So it is in every interleaving, with any number of wake-ups for no reason in it. */
  lemma RunNeverStuck(run: seq<State>, maxCount: nat, flag: int, i: nat, p: Tid, c: Tid)
    requires WellStarted(maxCount, flag) && IsRun(run, maxCount, flag) && i < |run| && IsPair(run[0].threads, p, c)
    ensures var s := run[i];
            && !(Sleeps(s, p) && Sleeps(s, c)) && CanGo(s)
            && s.q.addCount - s.q.getCount == |s.q.items| <= 1
  {
    RunKeeps(run, maxCount, flag, i);
    RunPending(run, maxCount, flag, i, p, c);
    PairGoes(run[i], maxCount, p, c);
  }

  // ---- any other number of them ----

  ghost function Last(run: seq<State>): State
    requires run != []
  {
    run[|run| - 1]
  }

  ghost predicate Continues(run: seq<State>, run': seq<State>, maxCount: nat, flag: int) {
    IsRun(run, maxCount, flag) && IsRun(run', maxCount, flag) && run'[0] == run[0]
  }

  lemma StepOn(run: seq<State>, maxCount: nat, flag: int, t: Tid, val: int) returns (run': seq<State>)
    requires IsRun(run, maxCount, flag) && t in Last(run).threads && Last(run).threads[t].pc != Asleep
    requires var s := Last(run); var pc := s.threads[t].pc;
             && (pc == Lock || pc == Awake ==> s.mutex == None)
             && (pc == Act ==> CanAct(s, s.threads[t].role)) && pc != Signal
    ensures Continues(run, run', maxCount, flag) && Step(Last(run), Last(run'), t, val)
  {
    var s' := CanStep(Last(run), t, val);
    run' := GoOn(run, maxCount, flag, s');
  }

  lemma GoOn(run: seq<State>, maxCount: nat, flag: int, s': State) returns (run': seq<State>)
    requires IsRun(run, maxCount, flag) && Next(Last(run), s')
    ensures Continues(run, run', maxCount, flag) && Last(run') == s'
  {
    run' := run + [s'];
    forall i | 0 < i < |run'|
      ensures Next(run'[i - 1], run'[i])
    {
      assert i < |run| ==> Next(run[i - 1], run[i]);
    }
  }

  /** Nobody is inside, and t is about to take the mutex. */
  ghost predicate Enters(s: State, t: Tid) {
    s.mutex == None && t in s.threads && (s.threads[t].pc == Lock || s.threads[t].pc == Awake)
  }

  ghost predicate SameQueue(s: State, s': State) {
    s'.q.items == s.q.items && s'.q.maxCount == s.q.maxCount && s'.flag == s.flag && s'.mutex == s.mutex
  }

  /** A thread whose turn it is not goes to sleep. */
  lemma FallAsleep(run: seq<State>, maxCount: nat, flag: int, t: Tid) returns (run': seq<State>)
    requires IsRun(run, maxCount, flag) && Enters(Last(run), t) && MustWait(Last(run), Last(run).threads[t].role)
    ensures Continues(run, run', maxCount, flag)
    ensures var s, s' := Last(run), Last(run');
            SameQueue(s, s') && s'.threads == s.threads[t := Client(s.threads[t].role, Asleep)]
  {
    var run1 := StepOn(run, maxCount, flag, t, 0);
    run' := StepOn(run1, maxCount, flag, t, 0);
  }

  lemma {:induction false} FallAsleepAll(run: seq<State>, maxCount: nat, flag: int, role: Role, ts: set<Tid>)
    returns (run': seq<State>)
    requires IsRun(run, maxCount, flag) && MustWait(Last(run), role) && Last(run).mutex == None
    requires forall t :: t in ts ==> Enters(Last(run), t) && Last(run).threads[t].role == role
    ensures Continues(run, run', maxCount, flag)
    ensures var s, s' := Last(run), Last(run');
            && SameQueue(s, s') && s'.threads.Keys == s.threads.Keys
            && forall t :: t in s.threads ==> s'.threads[t] == if t in ts then Client(role, Asleep) else s.threads[t]
    decreases |ts|
  {
    if ts == {} {
      run' := run;
    } else {
      var t :| t in ts;
      var run1 := FallAsleep(run, maxCount, flag, t);
      run' := FallAsleepAll(run1, maxCount, flag, role, ts - {t});
    }
  }

  lemma ToSignal(run: seq<State>, maxCount: nat, flag: int, t: Tid, val: int) returns (run': seq<State>)
    requires IsRun(run, maxCount, flag) && Enters(Last(run), t)
    requires var s := Last(run); var role := s.threads[t].role; !MustWait(s, role) && CanAct(s, role)
    ensures Continues(run, run', maxCount, flag)
    ensures var s, s' := Last(run), Last(run'); var role := s.threads[t].role;
            && s'.q.maxCount == s.q.maxCount
            && s'.flag == (if role == Producer then PROHIBIT_SHARE else ALLOW_SHARE)
            && |s'.q.items| == |s.q.items| + (if role == Producer then 1 else -1)
            && (role == Producer ==> s'.q.addCount == s.q.addCount + 1)
            && s'.threads == s.threads[t := Client(role, Signal)]
  {
    var run1 := StepOn(run, maxCount, flag, t, val);
    var run2 := StepOn(run1, maxCount, flag, t, val);
    run' := StepOn(run2, maxCount, flag, t, val);
  }

  /** A thread whose turn it is adds or gets, and wakes up u. */
  lemma TakeTurn(run: seq<State>, maxCount: nat, flag: int, t: Tid, val: int, u: Option<Tid>) returns (run': seq<State>)
    requires IsRun(run, maxCount, flag) && Enters(Last(run), t)
    requires var s := Last(run); var role := s.threads[t].role;
             && !MustWait(s, role) && CanAct(s, role)
             && if u.Some? then Sleeps(s, u.value) else forall w :: !Sleeps(s, w)
    ensures Continues(run, run', maxCount, flag)
    ensures var s, s' := Last(run), Last(run'); var role := s.threads[t].role;
            && s'.mutex == None && s'.q.maxCount == s.q.maxCount
            && s'.flag == (if role == Producer then PROHIBIT_SHARE else ALLOW_SHARE)
            && |s'.q.items| == |s.q.items| + (if role == Producer then 1 else -1)
            && (role == Producer ==> s'.q.addCount == s.q.addCount + 1)
            && s'.threads == Woken(s.threads, u)[t := Client(role, Lock)]
  {
    var run1 := ToSignal(run, maxCount, flag, t, val);
    assert forall w :: Sleeps(Last(run1), w) <==> Sleeps(Last(run), w);
    var run2 := SignalTo(run1, maxCount, flag, t, u);
    run' := StepOn(run2, maxCount, flag, t, val);
  }

  ghost function Woken(threads: map<Tid, Client>, u: Option<Tid>): map<Tid, Client>
    requires u.Some? ==> u.value in threads
  {
    if u.Some? then threads[u.value := Client(threads[u.value].role, Awake)] else threads
  }

  lemma SignalTo(run: seq<State>, maxCount: nat, flag: int, t: Tid, u: Option<Tid>) returns (run': seq<State>)
    requires IsRun(run, maxCount, flag) && t in Last(run).threads && Last(run).threads[t].pc == Signal
    requires if u.Some? then Sleeps(Last(run), u.value) else forall w :: !Sleeps(Last(run), w)
    ensures Continues(run, run', maxCount, flag)
    ensures var s, s' := Last(run), Last(run');
            s' == s.(threads := Woken(s.threads, u)[t := Client(s.threads[t].role, Unlock)])
  {
    var s := Last(run);
    var s' := With(if u.Some? then With(s, u.value, Awake) else s, t, Unlock);
    assert Step(s, s', t, 0);
    run' := GoOn(run, maxCount, flag, s');
  }

  lemma AllAsleep(s: State)
    requires forall t :: t in s.threads ==> s.threads[t].pc == Asleep
    ensures !CanGo(s)
  {
  }

  /** Everybody but c is asleep, an item is in, and c has been woken up to take it. */
  ghost predicate OneAwake(s: State, c: Tid) {
    && s.mutex == None && c in s.threads && s.threads[c] == Client(Consumer, Awake)
    && |s.q.items| == 1 && s.q.maxCount >= 1 && s.flag == PROHIBIT_SHARE
    && forall t :: t in s.threads && t != c ==> s.threads[t].pc == Asleep
  }

  /** A consumer that has taken the item wakes up another one, which finds nothing. */
  lemma TwoConsumersStick(run: seq<State>, maxCount: nat, flag: int, c: Tid, d: Tid) returns (run': seq<State>)
    requires IsRun(run, maxCount, flag) && OneAwake(Last(run), c)
    requires d != c && d in Last(run).threads && Last(run).threads[d].role == Consumer
    ensures Continues(run, run', maxCount, flag) && !CanGo(Last(run'))
  {
    var run1 := TakeTurn(run, maxCount, flag, c, 0, Some(d));
    var run2 := FallAsleep(run1, maxCount, flag, c);
    run' := FallAsleep(run2, maxCount, flag, d);
    AllAsleep(Last(run'));
  }

  /** A producer that the consumer has woken up adds an item and wakes up another one, which may not add. */
  lemma TwoProducersStick(run: seq<State>, maxCount: nat, flag: int, c: Tid, p: Tid, r: Tid) returns (run': seq<State>)
    requires IsRun(run, maxCount, flag) && OneAwake(Last(run), c) && p != r
    requires p in Last(run).threads && Last(run).threads[p].role == Producer
    requires r in Last(run).threads && Last(run).threads[r].role == Producer
    ensures Continues(run, run', maxCount, flag) && !CanGo(Last(run'))
  {
    var run1 := TakeTurn(run, maxCount, flag, c, 0, Some(p));
    var run2 := FallAsleep(run1, maxCount, flag, c);
    var run3 := TakeTurn(run2, maxCount, flag, p, 0, Some(r));
    var run4 := FallAsleep(run3, maxCount, flag, p);
    run' := FallAsleep(run4, maxCount, flag, r);
    AllAsleep(Last(run'));
  }

  ghost function Those(s: State, role: Role): set<Tid> {
    set t | t in s.threads && s.threads[t].role == role
  }

  /** Without a consumer: a producer adds one item, and then all of them wait for good. */
  lemma NoConsumersStick(run: seq<State>, maxCount: nat, flag: int, p: Tid) returns (run': seq<State>)
    requires WellStarted(maxCount, flag) && IsRun(run, maxCount, flag) && Init(Last(run), maxCount, flag)
    requires p in Last(run).threads && forall t :: t in Last(run).threads ==> Last(run).threads[t].role == Producer
    ensures Continues(run, run', maxCount, flag) && !CanGo(Last(run'))
  {
    var run1 := TakeTurn(run, maxCount, flag, p, 0, None);
    run' := FallAsleepAll(run1, maxCount, flag, Producer, Last(run1).threads.Keys);
    AllAsleep(Last(run'));
  }

  /** With consumers: they all find nothing, then one producer adds an item and wakes up c, and
      the producers wait. */
  lemma ToOneAwake(s: State, maxCount: nat, flag: int, p: Tid, c: Tid) returns (run: seq<State>)
    requires WellStarted(maxCount, flag) && Init(s, maxCount, flag)
    requires p in s.threads && s.threads[p].role == Producer && c in s.threads && s.threads[c].role == Consumer
    ensures IsRun(run, maxCount, flag) && run[0] == s && OneAwake(Last(run), c)
    ensures Last(run).threads.Keys == s.threads.Keys
    ensures forall t :: t in s.threads ==> Last(run).threads[t].role == s.threads[t].role
  {
    var run1 := FallAsleepAll([s], maxCount, flag, Consumer, Those(s, Consumer));
    var run2 := TakeTurn(run1, maxCount, flag, p, 0, Some(c));
    run := FallAsleepAll(run2, maxCount, flag, Producer, Those(Last(run2), Producer));
  }

  /** Any threads but one producer and one consumer can come to a stop. */
  lemma OthersStick(s: State, maxCount: nat, flag: int) returns (run: seq<State>)
    requires WellStarted(maxCount, flag) && Init(s, maxCount, flag) && !exists p, c :: IsPair(s.threads, p, c)
    ensures IsRun(run, maxCount, flag) && run[0] == s && !CanGo(Last(run))
  {
    assert forall t :: t in s.threads ==> t in Those(s, Producer) || t in Those(s, Consumer);
    if p :| p in Those(s, Producer) {
      if c :| c in Those(s, Consumer) {
        run := ToOneAwake(s, maxCount, flag, p, c);
        if d :| d in Those(s, Consumer) && d != c {
          run := TwoConsumersStick(run, maxCount, flag, c, d);
        } else {
          var r := AnotherProducer(s, p, c);
          run := TwoProducersStick(run, maxCount, flag, c, p, r);
        }
      } else {
        run := NoConsumersStick([s], maxCount, flag, p);
      }
    } else {
      run := FallAsleepAll([s], maxCount, flag, Consumer, Those(s, Consumer));
      AllAsleep(Last(run));
    }
  }

  lemma AnotherProducer(s: State, p: Tid, c: Tid) returns (r: Tid)
    requires p in Those(s, Producer) && Those(s, Consumer) == {c} && !IsPair(s.threads, p, c)
    ensures r in Those(s, Producer) && r != p
  {
    assert exists t :: t in s.threads && t != p && t != c by {
      assert !(s.threads.Keys == {p, c});
    }
    r :| r in s.threads && r != p && r != c;
    assert r !in Those(s, Consumer);
  }

  /** With capacity and a flag that allows the first add, no interleaving comes to a stop exactly
      when one producer and one consumer share the queue. */
  lemma NeverStuckIffPair(s: State, maxCount: nat, flag: int)
    requires WellStarted(maxCount, flag) && Init(s, maxCount, flag)
    ensures (forall run: seq<State>, i :: IsRun(run, maxCount, flag) && run[0] == s && 0 <= i < |run| ==> CanGo(run[i]))
            <==> exists p, c :: IsPair(s.threads, p, c)
  {
    if p, c :| IsPair(s.threads, p, c) {
      forall run: seq<State>, i | IsRun(run, maxCount, flag) && run[0] == s && 0 <= i < |run|
        ensures CanGo(run[i])
      {
        RunNeverStuck(run, maxCount, flag, i, p, c);
      }
    } else {
      var run := OthersStick(s, maxCount, flag);
      assert IsRun(run, maxCount, flag) && run[0] == s && 0 <= |run| - 1 < |run|;
    }
  }

  // ---- how soon something happens ----

  /** What a thread can still do before it acts or sleeps; a signal may set another off again. */
  function Weight(pc: Pc): nat {
    match pc
    case Asleep => 0
    case Act => 0
    case Check => 1
    case Awake => 2
    case Lock => 2
    case Unlock => 3
    case Signal => 6
  }

  ghost function Total(threads: map<Tid, Client>, ts: set<Tid>): nat
    requires ts <= threads.Keys
  {
    if ts == {} then 0
    else
      var t :| t in ts;
      Weight(threads[t].pc) + Total(threads, ts - {t})
  }

  lemma {:induction false} TotalPick(threads: map<Tid, Client>, ts: set<Tid>, t: Tid)
    requires ts <= threads.Keys && t in ts
    ensures Total(threads, ts) == Weight(threads[t].pc) + Total(threads, ts - {t})
    decreases |ts|
  {
    var u :| u in ts && Total(threads, ts) == Weight(threads[u].pc) + Total(threads, ts - {u});
    if u != t {
      TotalPick(threads, ts - {u}, t);
      TotalPick(threads, ts - {t}, u);
      assert ts - {u} - {t} == ts - {t} - {u};
    }
  }

  lemma {:induction false} TotalChange(threads: map<Tid, Client>, ts: set<Tid>, t: Tid, c: Client)
    requires ts <= threads.Keys && t in threads
    ensures Total(threads[t := c], ts) ==
            Total(threads, ts) + if t in ts then Weight(c.pc) - Weight(threads[t].pc) else 0
    decreases |ts|
  {
    if ts != {} {
      var u :| u in ts;
      TotalPick(threads, ts, u);
      TotalPick(threads[t := c], ts, u);
      TotalChange(threads, ts - {u}, t, c);
    }
  }

  ghost function Distance(s: State): nat {
    Total(s.threads, s.threads.Keys)
  }

  predicate IsAct(s: State, t: Tid) {
    t in s.threads && s.threads[t].pc == Act
  }

  lemma WithDistance(s: State, t: Tid, pc: Pc)
    requires t in s.threads
    ensures Distance(With(s, t, pc)) == Distance(s) + Weight(pc) - Weight(s.threads[t].pc)
  {
    TotalChange(s.threads, s.threads.Keys, t, Client(s.threads[t].role, pc));
    assert With(s, t, pc).threads.Keys == s.threads.Keys;
  }

  /** Every step that is not an add or a get, and not a wake-up for no reason, uses up distance. */
  lemma StepsRunOut(s: State, s': State, t: Tid, val: int)
    requires Exclusion(s) && Step(s, s', t, val)
    ensures if IsAct(s, t) then s'.q.addCount + s'.q.getCount == s.q.addCount + s.q.getCount + 1
            else Distance(s') < Distance(s) && s'.q.items == s.q.items
  {
    var pc := s.threads[t].pc;
    if pc == Signal {
      SignalUses(s, s', t);
    } else if pc != Act {
      WithDistance(s, t, s'.threads[t].pc);
    }
  }

  lemma SignalUses(s: State, s': State, t: Tid)
    requires t in s.threads && s.threads[t].pc == Signal && Signals(s, s', t)
    ensures Distance(s') < Distance(s)
  {
    if s' == With(s, t, Unlock) {
      WithDistance(s, t, Unlock);
    } else {
      var u :| Sleeps(s, u) && s' == With(With(s, u, Awake), t, Unlock);
      WithDistance(s, u, Awake);
      WithDistance(With(s, u, Awake), t, Unlock);
    }
  }

  lemma {:induction false} TotalBound(s: State, ts: set<Tid>)
    requires Exclusion(s) && ts <= s.threads.Keys
    ensures Total(s.threads, ts) <= 2 * |ts| + if s.mutex.Some? && s.mutex.value in ts then 4 else 0
    decreases |ts|
  {
    if ts != {} {
      var t :| t in ts;
      TotalPick(s.threads, ts, t);
      TotalBound(s, ts - {t});
      assert HasMutex(s.threads[t].pc) <==> s.mutex == Some(t);
    }
  }

  /** A step that neither adds nor gets, nor is a wake-up for no reason. */
  ghost predicate Quiet(s: State, s': State) {
    exists t, val :: Step(s, s', t, val) && !IsAct(s, t)
  }

  ghost predicate IsQuiet(run: seq<State>) {
    forall i :: 0 < i < |run| ==> Quiet(run[i - 1], run[i])
  }

  /** Without wake-ups for no reason, n threads take at most 2n + 4 steps in a row in which
      nothing is added and nothing taken. */
  lemma {:induction false} QuietIsShort(run: seq<State>, maxCount: nat)
    requires maxCount >= 1 && run != [] && Inv(run[0], maxCount) && IsQuiet(run)
    ensures |run| - 1 <= Distance(run[0]) <= 2 * |run[0].threads| + 4
    decreases |run|
  {
    TotalBound(run[0], run[0].threads.Keys);
    if |run| > 1 {
      assert Quiet(run[0], run[1]);
      var t, val :| Step(run[0], run[1], t, val) && !IsAct(run[0], t);
      StepsRunOut(run[0], run[1], t, val);
      StepKeeps(run[0], run[1], t, val, maxCount);
      var rest := run[1..];
      assert forall i :: 0 < i < |rest| ==> rest[i - 1] == run[i] && rest[i] == run[i + 1];
      QuietIsShort(rest, maxCount);
    }
  }

  // ---- started otherwise ----

  /** Nothing can be put in and nothing taken out. */
  ghost predicate Dead(s: State) {
    && s.q.items == [] && s.q.addCount == s.q.getCount == 0
    && (s.q.maxCount == 0 || s.flag == PROHIBIT_SHARE)
    && forall t :: t in s.threads ==> s.threads[t].pc != Act
  }

  lemma DeadStep(s: State, s': State, t: Tid, val: int)
    requires Dead(s) && Step(s, s', t, val)
    ensures Dead(s')
  {
    assert MustWait(s, s.threads[t].role) && s.threads[t].pc != Act;
  }

  lemma DeadNext(s: State, s': State)
    requires Dead(s) && Next(s, s')
    ensures Dead(s')
  {
    if t, val :| Step(s, s', t, val) {
      DeadStep(s, s', t, val);
    }
  }

  lemma {:induction false} DeadForever(run: seq<State>, maxCount: nat, flag: int, i: nat)
    requires !WellStarted(maxCount, flag) && IsRun(run, maxCount, flag) && i < |run|
    ensures Dead(run[i])
    decreases i
  {
    if i > 0 {
      DeadForever(run, maxCount, flag, i - 1);
      assert Next(run[i - 1], run[i]);
      DeadNext(run[i - 1], run[i]);
    }
  }

  /** With a producer around something can ever be added exactly when there is room and the flag
      that queueInit leaves unset does not happen to be PROHIBIT_SHARE. */
  lemma WorksIffWellStarted(s: State, maxCount: nat, flag: int, p: Tid)
    requires Init(s, maxCount, flag) && p in s.threads && s.threads[p].role == Producer
    ensures (exists run: seq<State>, i ::
               IsRun(run, maxCount, flag) && run[0] == s && 0 <= i < |run| && run[i].q.addCount > 0)
            <==> WellStarted(maxCount, flag)
  {
    if WellStarted(maxCount, flag) {
      var run := TakeTurn([s], maxCount, flag, p, 0, None);
      assert 0 <= |run| - 1 < |run| && run[|run| - 1].q.addCount > 0;
    } else {
      forall run: seq<State>, i | IsRun(run, maxCount, flag) && 0 <= i < |run|
        ensures run[i].q.addCount == 0
      {
        DeadForever(run, maxCount, flag, i);
      }
    }
  }
}
