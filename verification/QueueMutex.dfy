/**
 Writers and readers of a queue under one mutex, interleaved at will. The writer retries a
 value until it is taken; the reader checks that values arrive one after the other.
 */
module QueueMutex {
  import opened Wrappers
  import opened QueueValue

  type Tid = nat

  datatype Client =
    | WLock(i: nat)                                     // queueAdd to be entered
    | WBody(i: nat)                                     // mutex held
    | WUnlock(i: nat, ok: bool)
    | RLock(expected: int, errors: nat)                 // queueGet to be entered
    | RBody(expected: int, errors: nat)
    | RUnlock(expected: int, errors: nat, val: Option<int>)
    | RCheck(expected: int, errors: nat, got: int)      // the value to be compared

  /** added and delivered record what has gone in and out. */
  datatype State = State(q: Queue, mutex: Option<Tid>, threads: map<Tid, Client>, added: seq<int>, delivered: seq<int>)

  predicate Critical(c: Client) {
    c.WBody? || c.WUnlock? || c.RBody? || c.RUnlock?
  }

  function With(s: State, t: Tid, c: Client): State {
    s.(threads := s.threads[t := c])
  }

  ghost predicate Step(s: State, s': State, t: Tid) {
    t in s.threads &&
    match s.threads[t]
    case WLock(i) => s.mutex == None && s' == With(s, t, WBody(i)).(mutex := Some(t))
    case WBody(i) =>
      var (q, ok) := Add(s.q, i);
      s' == With(s, t, WUnlock(i, ok)).(q := q, added := if ok then s.added + [i] else s.added)
    case WUnlock(i, ok) => s' == With(s, t, WLock(if ok then i + 1 else i)).(mutex := None)
    case RLock(expected, errors) => s.mutex == None && s' == With(s, t, RBody(expected, errors)).(mutex := Some(t))
    case RBody(expected, errors) =>
      var (q, val) := Get(s.q);
      s' == With(s, t, RUnlock(expected, errors, val)).(
        q := q, delivered := if val.Some? then s.delivered + [val.value] else s.delivered)
    case RUnlock(expected, errors, val) =>
      var next := if val.Some? then RCheck(expected, errors, val.value) else RLock(expected, errors);
      s' == With(s, t, next).(mutex := None)
    case RCheck(expected, errors, got) =>
      s' == With(s, t, RLock(got + 1, if expected != got then errors + 1 else errors))
  }

  ghost predicate Init(s: State, maxCount: nat) {
    && s.q == Empty(maxCount) && s.mutex == None && s.added == s.delivered == []
    && forall t :: t in s.threads ==> s.threads[t] == WLock(0) || s.threads[t] == RLock(0, 0)
  }

  ghost predicate Next(s: State, s': State) {
    exists t :: Step(s, s', t)
  }

  ghost predicate IsRun(run: seq<State>, maxCount: nat) {
    && run != [] && Init(run[0], maxCount)
    && forall i :: 0 < i < |run| ==> Next(run[i - 1], run[i])
  }

  // ---- first in, first out ----

  ghost predicate Fifo(s: State, maxCount: nat) {
    && s.q.maxCount == maxCount && |s.q.items| <= maxCount
    && s.delivered + s.q.items == s.added
    && s.q.addCount == |s.added| && s.q.getCount == |s.delivered|
  }

  ghost predicate Exclusion(s: State) {
    && (s.mutex.Some? ==> s.mutex.value in s.threads)
    && forall t :: t in s.threads ==> (Critical(s.threads[t]) <==> s.mutex == Some(t))
  }

  lemma StepKeeps(s: State, s': State, t: Tid, maxCount: nat)
    requires Fifo(s, maxCount) && Exclusion(s) && Step(s, s', t)
    ensures Fifo(s', maxCount) && Exclusion(s') && s'.threads.Keys == s.threads.Keys
    ensures s.added <= s'.added && s.delivered <= s'.delivered
  {
    match s.threads[t]
    case WBody(i) =>
      if Add(s.q, i).1 {
        assert s.delivered + (s.q.items + [i]) == s.added + [i];
      }
    case RBody(_, _) =>
      if s.q.items != [] {
        assert s.delivered + s.q.items == s.delivered + [s.q.items[0]] + s.q.items[1..];
      }
    case _ =>
  }

  /** In every interleaving of any number of writers and readers what came out and what is still
      in the queue are what went in, in order, and no two threads are inside. */
  lemma {:induction false} RunFifo(run: seq<State>, maxCount: nat, i: nat)
    requires IsRun(run, maxCount) && i < |run|
    ensures Fifo(run[i], maxCount) && Exclusion(run[i])
    decreases i
  {
    if i > 0 {
      RunFifo(run, maxCount, i - 1);
      assert Next(run[i - 1], run[i]);
      var t :| Step(run[i - 1], run[i], t);
      StepKeeps(run[i - 1], run[i], t, maxCount);
    }
  }

  // ---- when an add or a get succeeds ----

  /** A writer inside adds its value exactly when there is room. */
  lemma WriterAdds(s: State, s': State, t: Tid, maxCount: nat)
    requires Fifo(s, maxCount) && Step(s, s', t) && s.threads[t].WBody?
    ensures var i, c := s.threads[t].i, s'.threads[t];
            && c.WUnlock? && c.i == i && (c.ok <==> |s.q.items| < maxCount)
            && s'.added == s.added + (if c.ok then [i] else []) && s'.delivered == s.delivered
            && s'.q.items == s.q.items + (if c.ok then [i] else [])
            && s'.q.addAttempts == s.q.addAttempts + 1 && s'.q.getAttempts == s.q.getAttempts
  {
    assert s.added + [] == s.added && s.q.items + [] == s.q.items;
  }

  /** A reader inside takes the first value exactly when there is one. */
  lemma ReaderTakes(s: State, s': State, t: Tid)
    requires Step(s, s', t) && s.threads[t].RBody?
    ensures var c := s'.threads[t];
            && c.RUnlock? && (c.val == None <==> s.q.items == [])
            && s.q.items == (if c.val.Some? then [c.val.value] else []) + s'.q.items
            && s'.delivered == s.delivered + (if c.val.Some? then [c.val.value] else []) && s'.added == s.added
            && s'.q.getAttempts == s.q.getAttempts + 1 && s'.q.addAttempts == s.q.addAttempts
  {
    assert s.delivered + [] == s.delivered && [] + s.q.items == s.q.items;
    if s.q.items != [] {
      assert s.q.items == [s.q.items[0]] + s.q.items[1..];
    }
  }

  /** Nobody else changes the queue. */
  lemma OthersKeepQueue(s: State, s': State, t: Tid)
    requires Step(s, s', t) && !s.threads[t].WBody? && !s.threads[t].RBody?
    ensures s'.q == s.q && s'.added == s.added && s'.delivered == s.delivered
  {
  }

  /** Whoever there is, some thread can step. */
  lemma NeverStuck(s: State, t: Tid)
    requires Exclusion(s) && t in s.threads
    ensures exists s' :: Next(s, s')
  {
    var u := if s.mutex.Some? then s.mutex.value else t;
    assert Critical(s.threads[u]) <==> s.mutex == Some(u);
    var s' := CanStep(s, u);
    assert Next(s, s');
  }

  lemma CanStep(s: State, t: Tid) returns (s': State)
    requires t in s.threads && (s.threads[t].WLock? || s.threads[t].RLock? ==> s.mutex == None)
    ensures Step(s, s', t)
  {
    match s.threads[t]
    case WLock(i) => s' := With(s, t, WBody(i)).(mutex := Some(t));
    case WBody(i) =>
      var (q, ok) := Add(s.q, i);
      s' := With(s, t, WUnlock(i, ok)).(q := q, added := if ok then s.added + [i] else s.added);
    case WUnlock(i, ok) => s' := With(s, t, WLock(if ok then i + 1 else i)).(mutex := None);
    case RLock(expected, errors) => s' := With(s, t, RBody(expected, errors)).(mutex := Some(t));
    case RBody(expected, errors) =>
      var (q, val) := Get(s.q);
      s' := With(s, t, RUnlock(expected, errors, val)).(
        q := q, delivered := if val.Some? then s.delivered + [val.value] else s.delivered);
    case RUnlock(expected, errors, val) =>
      var next := if val.Some? then RCheck(expected, errors, val.value) else RLock(expected, errors);
      s' := With(s, t, next).(mutex := None);
    case RCheck(expected, errors, got) =>
      s' := With(s, t, RLock(got + 1, if expected != got then errors + 1 else errors));
  }

  // ---- one writer, one reader ----

  ghost predicate Counts(values: seq<int>) {
    forall k :: 0 <= k < |values| ==> values[k] == k
  }

  ghost predicate WriterOk(s: State, c: Client) {
    match c
    case WLock(i) => i == |s.added|
    case WBody(i) => i == |s.added|
    case WUnlock(i, ok) => |s.added| == if ok then i + 1 else i
    case _ => false
  }

  ghost predicate ReaderOk(s: State, c: Client) {
    match c
    case RLock(expected, errors) => expected == |s.delivered| && errors == 0
    case RBody(expected, errors) => expected == |s.delivered| && errors == 0
    case RUnlock(expected, errors, None) => expected == |s.delivered| && errors == 0
    case RUnlock(expected, errors, Some(v)) => v == expected == |s.delivered| - 1 && errors == 0
    case RCheck(expected, errors, v) => v == expected == |s.delivered| - 1 && errors == 0
    case _ => false
  }

  ghost predicate InStep(s: State, w: Tid, r: Tid) {
    && w != r && s.threads.Keys == {w, r}
    && Counts(s.added)
    && WriterOk(s, s.threads[w]) && ReaderOk(s, s.threads[r])
  }

  lemma WriterKeeps(s: State, s': State, w: Tid, r: Tid)
    requires InStep(s, w, r) && Step(s, s', w)
    ensures InStep(s', w, r)
  {
    assert s'.threads.Keys == s.threads.Keys;
  }

  lemma ReaderKeeps(s: State, s': State, w: Tid, r: Tid, maxCount: nat)
    requires InStep(s, w, r) && Fifo(s, maxCount) && Step(s, s', r)
    ensures InStep(s', w, r)
  {
    assert s'.threads.Keys == s.threads.Keys;
    if s.threads[r].RBody? && s.q.items != [] {
      assert s.q.items[0] == s.added[|s.delivered|];
    }
  }

  lemma {:induction false} RunInStep(run: seq<State>, maxCount: nat, w: Tid, r: Tid, i: nat)
    requires IsRun(run, maxCount) && i < |run|
    requires w != r && run[0].threads == map[w := WLock(0), r := RLock(0, 0)]
    ensures InStep(run[i], w, r)
    decreases i
  {
    if i == 0 {
      assert run[0].threads.Keys == {w, r};
    } else {
      RunInStep(run, maxCount, w, r, i - 1);
      RunFifo(run, maxCount, i - 1);
      assert Next(run[i - 1], run[i]);
      var t :| Step(run[i - 1], run[i], t);
      if t == w {
        WriterKeeps(run[i - 1], run[i], w, r);
      } else {
        ReaderKeeps(run[i - 1], run[i], w, r, maxCount);
      }
    }
  }

  /** The reader never gets a value it did not expect: each value it compares is the expected one,
      and it counts no error, whatever the capacity and the schedule. */
  lemma ReaderSeesCounting(run: seq<State>, maxCount: nat, w: Tid, r: Tid, i: nat)
    requires IsRun(run, maxCount) && i < |run|
    requires w != r && run[0].threads == map[w := WLock(0), r := RLock(0, 0)]
    ensures r in run[i].threads && Counts(run[i].delivered)
    ensures match run[i].threads[r]
            case RLock(_, errors) => errors == 0
            case RBody(_, errors) => errors == 0
            case RUnlock(_, errors, _) => errors == 0
            case RCheck(expected, errors, got) => expected == got && errors == 0
            case _ => false
  {
    RunInStep(run, maxCount, w, r, i);
    RunFifo(run, maxCount, i);
    var s := run[i];
    assert forall k :: 0 <= k < |s.delivered| ==> s.delivered[k] == s.added[k];
  }
}
