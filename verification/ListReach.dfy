/**
 Which lists the swappers can make of the one they are started on. Two or more of them: every
 permutation with the same first node. One alone: it goes round and round, and exchanges the
 nodes behind positions 0, 1, 2, ... in turn, so the lists are those of its tour and no others.
 */
module ListReach {
  import opened Wrappers
  import opened ListProtocol
  import opened ListInvariant
  import opened ListPaths

  /** No thread holds a node. */
  ghost predicate Outside(s: State) {
    Inv(s) && forall t :: t in s.threads ==> s.threads[t].held == []
  }

  /** A swapper about to begin a pass. */
  predicate AtDoor(s: State, t: Tid) {
    t in s.threads && s.threads[t] == Thread(SEnter, [], None)
  }

  /** An interleaving at both ends of which nobody holds a node, with all threads where they were. */
  ghost predicate Returns(s: State, s': State) {
    Leads(s, s') && Outside(s') && s'.threads == s.threads && s'.first == s.first && s'.mutexes == s.mutexes
  }

  lemma OutsideLone(s: State, t: Tid)
    requires Outside(s) && t in s.threads
    ensures Came(s, s, t)
  {
    CameSelf(s, t);
  }

  /** t has come back to where it started from. */
  lemma CameReturns(s: State, s': State, t: Tid)
    requires Outside(s) && Came(s, s', t) && s'.threads[t] == s.threads[t]
    ensures Returns(s, s')
  {
    assert s'.threads == s.threads;
  }

  lemma CameOutside(s: State, s': State, t: Tid)
    requires Outside(s) && Came(s, s', t) && s'.threads[t].held == []
    ensures Outside(s')
  {
    forall u | u in s'.threads
      ensures s'.threads[u].held == []
    {
      assert u != t ==> s'.threads[u] == s.threads[u];
    }
  }

  lemma ReturnsFar(s: State, s1: State, s2: State)
    requires Returns(s, s1) && Returns(s1, s2)
    ensures Returns(s, s2)
  {
    hide Inv;
    LeadsFar(s, s1, s2);
  }

  // ---- a whole pass of one swapper ----

  function ToEnd<T>(chain: seq<T>, k: nat): seq<T>
    requires k <= |chain|
  {
    if k == |chain| then chain else chain[..k] + chain[k + 1..] + [chain[k]]
  }

  lemma ToEndStep<T>(chain: seq<T>, p: nat)
    requires p + 2 < |chain|
    ensures ToEnd(Swapped(chain, p), p + 2) == ToEnd(chain, p + 1)
  {
    var c := Swapped(chain, p);
    assert c[..p + 2] == chain[..p + 1] + [chain[p + 2]];
    assert c[p + 3..] == chain[p + 3..];
    assert chain[p + 2..] == [chain[p + 2]] + chain[p + 3..];
  }

  /** From position p on, a swapper that swaps wherever it can takes the node behind p to the end. */
  lemma {:induction false} PassFrom(s0: State, s: State, t: Tid, p: nat) returns (s': State)
    requires Came(s0, s, t) && p < |s.chain| && s.threads[t] == Thread(STop, [], Some(s.chain[p]))
    ensures Came(s0, s', t) && s'.threads[t] == Thread(STop, [], None) && s'.chain == ToEnd(s.chain, p + 1)
    decreases |s.chain| - p
  {
    hide Inv;
    if p + 2 < |s.chain| {
      var s1 := SwapRound(s0, s, t, p);
      ToEndStep(s.chain, p);
      s' := PassFrom(s0, s1, t, p + 1);
    } else if p + 2 == |s.chain| {
      var s1 := PassRound(s0, s, t, p);
      s' := LastSwapped(s0, s1, t);
      assert s.chain == s.chain[..p + 1] + [s.chain[p + 1]];
    } else {
      s' := LastSwapped(s0, s, t);
    }
  }

  function Rotated<T>(chain: seq<T>): seq<T>
    requires chain != []
  {
    ToEnd(chain, 1)
  }

  lemma EnterDoor(s0: State, s: State, t: Tid) returns (s': State)
    requires Came(s0, s, t) && AtDoor(s, t) && s.chain != []
    ensures Came(s0, s', t) && s'.chain == s.chain && s'.threads[t] == Thread(STop, [], Some(s.chain[0]))
  {
    FirstIs(s, t);
    s' := Jump(s0, s, t, Thread(STop, [], s.first));
  }

  lemma FirstIs(s: State, t: Tid)
    requires Lone(s, t) && s.chain != []
    ensures s.first == Some(s.chain[0])
  {
  }

  lemma FullPass(s: State, t: Tid) returns (s': State)
    requires Outside(s) && AtDoor(s, t) && s.chain != []
    ensures Returns(s, s') && s'.chain == Rotated(s.chain)
  {
    hide Inv;
    OutsideLone(s, t);
    var s1 := EnterDoor(s, s, t);
    var s2 := PassFrom(s, s1, t, 0);
    s' := Jump(s, s2, t, Thread(SEnter, [], None));
    CameReturns(s, s', t);
  }

  // ---- two swappers ----

  /** One of them exchanges two nodes and is overtaken by the other. */
  lemma Overtaking(s: State, a: Tid, b: Tid) returns (s': State)
    requires Outside(s) && AtDoor(s, a) && AtDoor(s, b) && a != b && |s.chain| >= 3
    ensures Returns(s, s') && s'.chain == Rotated(Swapped(s.chain, 0))
  {
    hide Inv;
    OutsideLone(s, a);
    var s1 := EnterDoor(s, s, a);
    var s2 := SwapRound(s, s1, a, 0);
    CameOutside(s, s2, a);
    var s3 := FullPass(s2, b);
    CameAround(s, s2, s3, a);
    var s4 := LastSwapped(s, s3, a);
    s' := Jump(s, s4, a, Thread(SEnter, [], None));
    CameReturns(s, s', a);
  }

  lemma CameAround(s: State, s1: State, s2: State, t: Tid)
    requires Came(s, s1, t) && Returns(s1, s2)
    ensures Came(s, s2, t)
  {
    LeadsFar(s, s1, s2);
  }

  function RotatedBy<T>(chain: seq<T>, k: nat): (c: seq<T>)
    requires chain != []
    ensures |c| == |chain|
  {
    if k == 0 then chain else Rotated(RotatedBy(chain, k - 1))
  }

  lemma {:induction false} RotatedByIs<T>(chain: seq<T>, k: nat)
    requires k < |chain|
    ensures RotatedBy(chain, k) == [chain[0]] + chain[1..][k..] + chain[1..][..k]
    decreases k
  {
    var rest := chain[1..];
    if k == 0 {
      assert chain == [chain[0]] + rest;
    } else {
      RotatedByIs(chain, k - 1);
      RotateOnce(chain[0], rest, k);
    }
  }

  lemma RotateOnce<T>(x: T, rest: seq<T>, k: nat)
    requires 0 < k <= |rest|
    ensures Rotated([x] + rest[k - 1..] + rest[..k - 1]) == [x] + rest[k..] + rest[..k]
  {
    var c := [x] + rest[k - 1..] + rest[..k - 1];
    assert c[..1] == [x] && c[1] == rest[k - 1] && c[2..] == rest[k..] + rest[..k - 1];
    assert rest[..k] == rest[..k - 1] + [rest[k - 1]];
  }

  lemma {:induction false} Passes(s: State, t: Tid, k: nat) returns (s': State)
    requires Outside(s) && AtDoor(s, t) && s.chain != []
    ensures Returns(s, s') && s'.chain == RotatedBy(s.chain, k)
    decreases k
  {
    hide Inv;
    hide Outside;
    if k == 0 {
      s' := s;
      LeadsSelf(s);
    } else {
      var s1 := Passes(s, t, k - 1);
      s' := FullPass(s1, t);
      ReturnsFar(s, s1, s');
    }
  }

  lemma FrontExchange<T>(chain: seq<T>, i: nat)
    requires i + 2 < |chain|
    ensures var rest := chain[1..];
            Rotated(Swapped(RotatedBy(chain, i), 0)) ==
            [chain[0]] + (([rest[i]] + rest[i + 2..]) + (rest[..i] + [rest[i + 1]]))
  {
    var rest := chain[1..];
    RotatedByIs(chain, i);
    var c1 := [chain[0]] + rest[i..] + rest[..i];
    assert c1[1] == rest[i] && c1[2] == rest[i + 1] && c1[3..] == rest[i + 2..] + rest[..i];
    var c2 := Swapped(c1, 0);
    assert c2[..1] == [chain[0]] && c2[1] == rest[i + 1] && c2[2..] == [rest[i]] + (rest[i + 2..] + rest[..i]);
  }

  lemma RotateTail<T>(x: T, u: seq<T>, v: seq<T>)
    requires v != []
    ensures RotatedBy([x] + (u + v), |u|) == [x] + v + u
  {
    var c := [x] + (u + v);
    RotatedByIs(c, |u|);
    assert c[1..] == u + v;
  }

  /** Rotating, exchanging at the front and rotating on exchanges anywhere. */
  lemma RotatedExchange<T>(chain: seq<T>, i: nat)
    requires i + 2 < |chain|
    ensures RotatedBy(Rotated(Swapped(RotatedBy(chain, i), 0)), |chain| - 2 - i) == Swapped(chain, i)
  {
    var rest := chain[1..];
    var u, v := [rest[i]] + rest[i + 2..], rest[..i] + [rest[i + 1]];
    FrontExchange(chain, i);
    RotateTail(chain[0], u, v);
    assert |u| == |chain| - 2 - i && Swapped(chain, i) == [chain[0]] + v + u;
  }

  /** Two swappers can exchange any two neighbours behind the first node and leave all else. */
  lemma ExchangeAt(s: State, a: Tid, b: Tid, i: nat) returns (s': State)
    requires Outside(s) && AtDoor(s, a) && AtDoor(s, b) && a != b && i + 2 < |s.chain|
    ensures Returns(s, s') && s'.chain == Swapped(s.chain, i)
  {
    hide Inv;
    hide Outside;
    var s1 := Passes(s, a, i);
    var s2 := Overtaking(s1, a, b);
    var s3 := Passes(s2, a, |s.chain| - 2 - i);
    RotatedExchange(s.chain, i);
    ReturnsFar(s, s1, s2);
    ReturnsFar(s, s2, s3);
    s' := s3;
  }

  // ---- every permutation ----

  lemma SwapBack(chain: seq<Node>, j: nat, q: nat)
    requires 1 <= j < q < |chain|
    ensures var c := Swapped(chain, q - 2);
            multiset(c) == multiset(chain) && c[..j] == chain[..j] && c[q - 1] == chain[q]
  {
    SwapMultiset(chain, q - 2);
  }

  /** The node that belongs at position j is brought there from position q. */
  lemma {:induction false} Bring(s: State, a: Tid, b: Tid, j: nat, q: nat) returns (s': State)
    requires Outside(s) && AtDoor(s, a) && AtDoor(s, b) && a != b && 1 <= j <= q < |s.chain|
    ensures Returns(s, s') && multiset(s'.chain) == multiset(s.chain) && |s'.chain| == |s.chain|
    ensures s'.chain[..j] == s.chain[..j] && s'.chain[j] == s.chain[q]
    decreases q
  {
    hide Inv;
    hide Outside;
    hide Swapped;
    hide Leads;
    if j == q {
      s' := s;
      LeadsSelf(s);
    } else {
      var s1 := ExchangeAt(s, a, b, q - 2);
      SwapBack(s.chain, j, q);
      s' := Bring(s1, a, b, j, q - 1);
      ReturnsFar(s, s1, s');
    }
  }

  lemma FindFrom(chain: seq<Node>, target: seq<Node>, j: nat) returns (q: nat)
    requires multiset(chain) == multiset(target) && j < |target| && |chain| == |target| && chain[..j] == target[..j]
    ensures j <= q < |chain| && chain[q] == target[j]
  {
    var v := target[j];
    assert chain == chain[..j] + chain[j..] && target == target[..j] + target[j..];
    assert multiset(chain)[v] == multiset(chain[..j])[v] + multiset(chain[j..])[v];
    assert multiset(target)[v] == multiset(target[..j])[v] + multiset(target[j..])[v];
    assert v == target[j..][0] && v in multiset(target[j..]);
    assert v in multiset(chain[j..]);
    var k :| 0 <= k < |chain[j..]| && chain[j..][k] == target[j];
    q := j + k;
  }

  lemma {:induction false} ArrangeFrom(s: State, a: Tid, b: Tid, target: seq<Node>, j: nat) returns (s': State)
    requires Outside(s) && AtDoor(s, a) && AtDoor(s, b) && a != b
    requires multiset(s.chain) == multiset(target) && |s.chain| == |target| && 1 <= j <= |target|
    requires s.chain[..j] == target[..j]
    ensures Returns(s, s') && s'.chain == target
    decreases |target| - j
  {
    hide Inv;
    hide Outside;
    if j == |target| {
      assert s.chain == s.chain[..j] == target;
      s' := s;
      LeadsSelf(s);
    } else {
      var q := FindFrom(s.chain, target, j);
      var s1 := Bring(s, a, b, j, q);
      assert s1.chain[..j + 1] == s1.chain[..j] + [s1.chain[j]] == target[..j] + [target[j]] == target[..j + 1];
      s' := ArrangeFrom(s1, a, b, target, j + 1);
      ReturnsFar(s, s1, s');
    }
  }

  /** An initial state is one in which nobody holds a node. */
  lemma InitOutside(s: State)
    requires Init(s)
    ensures Outside(s)
  {
    InitInv(s);
  }

  ghost predicate Reached(s: State, chain: seq<Node>) {
    exists run: seq<State> :: IsRun(run) && run[0] == s && run[|run| - 1].chain == chain
  }

  lemma LeadsReached(s: State, s': State)
    requires Init(s) && Leads(s, s')
    ensures Reached(s, s'.chain)
  {
    var run := LeadsRun(s, s');
  }

  /** With two swappers the lists reached are the permutations that keep the first node. */
  lemma TwoReachPermutations(s: State, a: Tid, b: Tid, target: seq<Node>)
    requires Init(s) && AtDoor(s, a) && AtDoor(s, b) && a != b && s.chain != []
    ensures Reached(s, target) <==>
            multiset(target) == multiset(s.chain) && target != [] && target[0] == s.chain[0]
  {
    if multiset(target) == multiset(s.chain) && target != [] && target[0] == s.chain[0] {
      InitOutside(s);
      SameLength(s.chain, target);
      assert s.chain[..1] == target[..1];
      var s' := ArrangeFrom(s, a, b, target, 1);
      LeadsReached(s, s');
    } else if Reached(s, target) {
      ReachedKeeps(s, target);
    }
  }

  lemma SameLength(xs: seq<Node>, ys: seq<Node>)
    requires multiset(xs) == multiset(ys)
    ensures |xs| == |ys|
  {
    assert |multiset(xs)| == |xs| && |multiset(ys)| == |ys|;
  }

  /** Whoever the threads are, they keep the nodes and the first of them. */
  lemma ReachedKeeps(s: State, target: seq<Node>)
    requires Reached(s, target) && s.chain != []
    ensures multiset(target) == multiset(s.chain) && target != [] && target[0] == s.chain[0]
  {
    var run: seq<State> :| IsRun(run) && run[0] == s && run[|run| - 1].chain == target;
    RunSafe(run, |run| - 1);
    RunSafe(run, 0);
    SameLength(s.chain, target);
  }
}
