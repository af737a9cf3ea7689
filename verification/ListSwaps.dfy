/**
 Every swap is made, and made once: between a swapper's having three neighbours locked and its
 giving the first of them back, it exchanges the two behind the first. Nothing else changes the list.
 */
module ListSwaps {
  import opened Wrappers
  import opened ListProtocol
  import opened ListInvariant

  /** The list with what is behind c exchanged. */
  ghost predicate Exchanges(chain: seq<Node>, chain': seq<Node>, c: Node, n: Node, m: Node) {
    && Follows(chain, c, n) && Follows(chain, n, m)
    && IndexOf(chain, c) + 2 < |chain| && chain' == Swapped(chain, IndexOf(chain, c))
  }

  /** A step that changes the list, or a link, is one of a thread that holds three neighbours; and
      the list it changes by exchanging the two behind the first. */
  lemma OnlySwapsChange(s: State, s': State, t: Tid)
    requires Inv(s) && Step(s, s', t)
    ensures var held := s.threads[t].held;
            && (s'.next != s.next ==> |held| == 3 && !IsCounter(s.threads[t].at))
            && (s'.chain != s.chain ==> |held| == 3 && Exchanges(s.chain, s'.chain, held[0], held[1], held[2]))
  {
    hide Inv;
    PlaceOf(s, t);
    if CounterStep(s, s', t) {
      CounterChanges(s, s', t);
    } else {
      SwapperChanges(s, s', t);
    }
  }

  lemma CounterChanges(s: State, s': State, t: Tid)
    requires t in s.threads && CounterStep(s, s', t)
    ensures s'.chain == s.chain && s'.next == s.next
  {
  }

  lemma SwapperChanges(s: State, s': State, t: Tid)
    requires t in s.threads && SwapperStep(s, s', t) && PlaceOk(s.chain, s.threads[t])
    ensures var held := s.threads[t].held;
            && (s'.next != s.next ==> |held| == 3 && !IsCounter(s.threads[t].at))
            && (s'.chain != s.chain ==> |held| == 3 && Exchanges(s.chain, s'.chain, held[0], held[1], held[2]))
  {
  }

  // ---- runs ----

  ghost predicate MovedBy(s: State, s': State, t: Tid) {
    t in s.threads && t in s'.threads && s'.threads[t] != s.threads[t]
  }

  /** The changes t makes to the list from state i to state j: before and after. */
  ghost function Changes(run: seq<State>, t: Tid, i: nat, j: nat): seq<(seq<Node>, seq<Node>)>
    requires i <= j < |run|
    decreases j
  {
    if i == j then []
    else
      Changes(run, t, i, j - 1) +
      if MovedBy(run[j - 1], run[j], t) && run[j].chain != run[j - 1].chain then [(run[j - 1].chain, run[j].chain)]
      else []
  }

  /** From state i to state j of a run t has three nodes locked. */
  ghost predicate HoldsThree(run: seq<State>, t: Tid, i: nat, j: nat)
    requires i <= j < |run|
  {
    forall k :: i <= k <= j ==> t in run[k].threads && |run[k].threads[t].held| == 3
  }

  /** Whether a thread that holds three nodes has made its swap. */
  predicate Done(at: Label) {
    at == SWrote3 || at == SLeave
  }

  /** t, which locked held, is in the middle of its swap, or done. */
  predicate Under(th: Thread, held: seq<Node>) {
    if th.at == SLeave then true
    else (th.at == SHold3 || th.at == SWrote1 || th.at == SWrote2 || th.at == SWrote3) && th.held == held
  }

  /** The changes made by then: none, or the one exchange. */
  ghost predicate Made(changes: seq<(seq<Node>, seq<Node>)>, th: Thread, held: seq<Node>) {
    if Done(th.at) then
      |changes| == 1 && |held| == 3 && Exchanges(changes[0].0, changes[0].1, held[0], held[1], held[2])
    else changes == []
  }

  /** The third node is locked by a thread that will swap. */
  lemma LocksThird(s: State, s': State, t: Tid)
    requires Inv(s) && Next(s, s') && t in s.threads && t in s'.threads
    requires |s.threads[t].held| == 2 && |s'.threads[t].held| == 3
    ensures s'.threads[t].at == SHold3
  {
    hide Inv;
    PlaceOf(s, t);
    var u :| Step(s, s', u);
    StepFrame(s, s', u);
    assert u == t;
    LocksThirdAt(s, s', t);
  }

  lemma LocksThirdAt(s: State, s': State, t: Tid)
    requires t in s.threads && Step(s, s', t) && t in s'.threads && PlaceOk(s.chain, s.threads[t])
    requires |s.threads[t].held| == 2 && |s'.threads[t].held| == 3
    ensures s'.threads[t].at == SHold3
  {
  }

  /** The first of three nodes is given back behind the swap. */
  lemma LeavesThird(s: State, s': State, t: Tid, held: seq<Node>)
    requires Next(s, s') && t in s.threads && t in s'.threads && Under(s.threads[t], held)
    requires |s.threads[t].held| == 3 && |s'.threads[t].held| == 2
    ensures s.threads[t].at == SLeave
  {
    var u :| Step(s, s', u);
    StepFrame(s, s', u);
    assert u == t;
    LeavesThirdAt(s, s', t, held);
  }

  lemma LeavesThirdAt(s: State, s': State, t: Tid, held: seq<Node>)
    requires t in s.threads && Step(s, s', t) && t in s'.threads && Under(s.threads[t], held)
    requires |s.threads[t].held| == 3 && |s'.threads[t].held| == 2
    ensures s.threads[t].at == SLeave
  {
  }

  /** What a step in between does. */
  ghost predicate OnTheWay(s: State, s': State, t: Tid, held: seq<Node>) {
    && t in s.threads && t in s'.threads && Under(s'.threads[t], held)
    && (if MovedBy(s, s', t) && s'.chain != s.chain
        then !Done(s.threads[t].at) && Done(s'.threads[t].at)
             && |held| == 3 && Exchanges(s.chain, s'.chain, held[0], held[1], held[2])
        else Done(s.threads[t].at) == Done(s'.threads[t].at))
  }

  lemma UnderWay(s: State, s': State, t: Tid, held: seq<Node>)
    requires Inv(s) && Next(s, s') && t in s.threads && t in s'.threads && Under(s.threads[t], held)
    requires |s.threads[t].held| == 3 && |s'.threads[t].held| == 3
    ensures OnTheWay(s, s', t, held)
  {
    hide Inv;
    var u :| Step(s, s', u);
    StepFrame(s, s', u);
    if u == t {
      OnlySwapsChange(s, s', t);
      ListSound(s);
      OwnStep(s, s', t, held);
    }
  }

  lemma ListSound(s: State)
    requires Inv(s)
    ensures NoDup(s.chain)
  {
  }

  lemma OwnStep(s: State, s': State, t: Tid, held: seq<Node>)
    requires NoDup(s.chain) && Step(s, s', t) && t in s.threads && t in s'.threads && Under(s.threads[t], held)
    requires |s.threads[t].held| == 3 && |s'.threads[t].held| == 3
    requires s'.chain != s.chain ==>
               Exchanges(s.chain, s'.chain, s.threads[t].held[0], s.threads[t].held[1], s.threads[t].held[2])
    ensures OnTheWay(s, s', t, held)
  {
    if s.threads[t].at == SWrote2 {
      Distinct(s.chain);
    }
  }

  lemma {:induction false} UnderAlong(run: seq<State>, t: Tid, i: nat, j: nat)
    requires IsRun(run) && i <= j < |run| && HoldsThree(run, t, i, j) && run[i].threads[t].at == SHold3
    ensures var held := run[i].threads[t].held;
            Under(run[j].threads[t], held) && (i < j ==> OnTheWay(run[j - 1], run[j], t, held))
    decreases j
  {
    hide Inv;
    hide Init;
    if i < j {
      UnderAlong(run, t, i, j - 1);
      StepAlong(run, t, j, run[i].threads[t].held);
    }
  }

  lemma StepAlong(run: seq<State>, t: Tid, j: nat, held: seq<Node>)
    requires IsRun(run) && 0 < j < |run| && t in run[j - 1].threads && t in run[j].threads
    requires |run[j - 1].threads[t].held| == 3 && |run[j].threads[t].held| == 3 && Under(run[j - 1].threads[t], held)
    ensures OnTheWay(run[j - 1], run[j], t, held)
  {
    hide Inv;
    var s, s' := run[j - 1], run[j];
    assert Inv(s) by {
      RunKeeps(run, j - 1);
    }
    assert Next(s, s') by {
      assert Next(run[j - 1], run[j]);
    }
    UnderWay(s, s', t, held);
  }

  ghost predicate AllTheWay(run: seq<State>, t: Tid, i: nat, j: nat, held: seq<Node>)
    requires i <= j < |run|
  {
    forall k {:trigger OnTheWay(run[k - 1], run[k], t, held)} :: i < k <= j ==> OnTheWay(run[k - 1], run[k], t, held)
  }

  lemma {:induction false} ChangesMade(run: seq<State>, t: Tid, i: nat, j: nat, held: seq<Node>)
    requires i <= j < |run| && HoldsThree(run, t, i, j) && run[i].threads[t].at == SHold3
    requires AllTheWay(run, t, i, j, held)
    ensures Made(Changes(run, t, i, j), run[j].threads[t], held)
    decreases j
  {
    hide Exchanges;
    if i < j {
      ChangesMade(run, t, i, j - 1, held);
      assert OnTheWay(run[j - 1], run[j], t, held);
      assert t in run[j - 1].threads && t in run[j].threads;
    }
  }

  /** Whenever a thread has come to hold three nodes and then gives one back, it has in between
      changed the list exactly once, by exchanging the two behind the first. */
  lemma SwapsOnce(run: seq<State>, t: Tid, i: nat, j: nat)
    requires IsRun(run) && 0 < i <= j && j + 1 < |run| && HoldsThree(run, t, i, j)
    requires t in run[i - 1].threads && |run[i - 1].threads[t].held| == 2
    requires t in run[j + 1].threads && |run[j + 1].threads[t].held| == 2
    ensures var changes, held := Changes(run, t, i, j), run[i].threads[t].held;
            |changes| == 1 && |held| == 3 && Exchanges(changes[0].0, changes[0].1, held[0], held[1], held[2])
  {
    var held := run[i].threads[t].held;
    ThirdLocked(run, t, i);
    forall k | i < k <= j
      ensures OnTheWay(run[k - 1], run[k], t, held)
    {
      UnderAlong(run, t, i, k);
    }
    ChangesMade(run, t, i, j, held);
    ThirdLeft(run, t, i, j);
  }

  lemma ThirdLocked(run: seq<State>, t: Tid, i: nat)
    requires IsRun(run) && 0 < i < |run|
    requires t in run[i - 1].threads && |run[i - 1].threads[t].held| == 2
    requires t in run[i].threads && |run[i].threads[t].held| == 3
    ensures run[i].threads[t].at == SHold3
  {
    var s, s' := run[i - 1], run[i];
    assert Inv(s) by {
      RunKeeps(run, i - 1);
    }
    assert Next(s, s') by {
      assert Next(run[i - 1], run[i]);
    }
    LocksThird(s, s', t);
  }

  lemma ThirdLeft(run: seq<State>, t: Tid, i: nat, j: nat)
    requires IsRun(run) && i <= j && j + 1 < |run| && HoldsThree(run, t, i, j) && run[i].threads[t].at == SHold3
    requires t in run[j + 1].threads && |run[j + 1].threads[t].held| == 2
    ensures run[j].threads[t].at == SLeave
  {
    var s, s', k := run[j], run[j + 1], j + 1;
    assert Next(s, s') by {
      assert Next(run[k - 1], run[k]);
    }
    assert Under(s.threads[t], run[i].threads[t].held) by {
      UnderAlong(run, t, i, j);
    }
    LeavesThird(s, s', t, run[i].threads[t].held);
  }
}
