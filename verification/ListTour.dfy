/**
 What a swapper alone, beside any number of counters, makes of the list: it exchanges the nodes
 behind positions 0, 1, 2, ... in turn and starts again, so the lists are those of one tour.
 */
module ListTour {
  import opened Wrappers
  import opened ListProtocol
  import opened ListInvariant
  import opened ListPaths
  import opened ListReach

  /** The list after r swaps. */
  function After<T>(chain: seq<T>, r: nat): (c: seq<T>)
    ensures |c| == |chain|
  {
    if r == 0 || |chain| < 3 then chain
    else Swapped(After(chain, r - 1), (r - 1) % (|chain| - 2))
  }

  lemma NextMod(r: nat, k: nat)
    requires k > 0
    ensures (r + 1) % k == if r % k + 1 == k then 0 else r % k + 1
  {
    var q, j := r / k, r % k;
    assert r == q * k + j;
    if j + 1 == k {
      assert r + 1 == (q + 1) * k;
      ModOf(q + 1, k, 0);
    } else {
      ModOf(q, k, j + 1);
    }
  }

  lemma ModOf(q: nat, k: nat, j: nat)
    requires j < k
    ensures (q * k + j) % k == j
  {
    var a := q * k + j;
    var d, e := a / k, a % k;
    assert (d - q) * k == j - e;
    assert d - q >= 1 ==> (d - q) * k >= k;
    assert d - q <= -1 ==> (d - q) * k + k <= 0;
  }

  // ---- every list of the tour is reached ----

  /** From the end of a pass to the start of the next. */
  lemma NextPass(s0: State, s: State, t: Tid) returns (s': State)
    requires Came(s0, s, t) && |s.chain| >= 3 && s.threads[t] == Thread(STop, [], Some(s.chain[|s.chain| - 2]))
    ensures Came(s0, s', t) && s'.chain == s.chain && s'.threads[t] == Thread(STop, [], Some(s.chain[0]))
  {
    hide Inv;
    var s1 := PassRound(s0, s, t, |s.chain| - 2);
    var s2 := LastSwapped(s0, s1, t);
    var s3 := Jump(s0, s2, t, Thread(SEnter, [], None));
    s' := EnterDoor(s0, s3, t);
  }

  lemma {:induction false} Tour(s: State, t: Tid, r: nat) returns (s': State)
    requires Outside(s) && AtDoor(s, t) && |s.chain| >= 3
    ensures Came(s, s', t) && s'.chain == After(s.chain, r)
    ensures s'.threads[t] == Thread(STop, [], Some(s'.chain[r % (|s.chain| - 2)]))
    decreases r
  {
    hide Inv;
    var k := |s.chain| - 2;
    if r == 0 {
      OutsideLone(s, t);
      s' := EnterDoor(s, s, t);
    } else {
      hide Leads, Lone;
      var s1 := Tour(s, t, r - 1);
      NextMod(r - 1, k);
      s' := TourOn(s, s1, t, (r - 1) % k);
    }
  }

  /** One swap further. */
  lemma TourOn(s0: State, s: State, t: Tid, p: nat) returns (s': State)
    requires Came(s0, s, t) && p + 2 < |s.chain| && s.threads[t] == Thread(STop, [], Some(s.chain[p]))
    ensures Came(s0, s', t) && s'.chain == Swapped(s.chain, p)
    ensures s'.threads[t] == Thread(STop, [], Some(s'.chain[if p + 3 == |s.chain| then 0 else p + 1]))
  {
    hide Inv, Leads, Lone;
    s' := SwapRound(s0, s, t, p);
    if p + 3 == |s.chain| {
      s' := NextPass(s0, s', t);
    }
  }

  // ---- and no other ----

  /** Where the next swap will be, for a swapper that goes on from v. */
  ghost function Where(chain: seq<Node>, v: Option<Node>): nat {
    if v.Some? && v.value in chain && IndexOf(chain, v.value) + 2 < |chain| then IndexOf(chain, v.value) else 0
  }

  predicate BeforeSwap(at: Label) {
    at == SHold || at == SWant || at == SHold2 || at == SWant3 || at == SHold3 || at == SWrote1 || at == SWrote2
  }

  /** Where the next swap will be, whatever the swapper is at. */
  ghost function Due(chain: seq<Node>, th: Thread): nat {
    if th.at == SEnter then 0
    else if BeforeSwap(th.at) && th.held != [] then Where(chain, Some(th.held[0]))
    else if th.at == SWrote3 && |th.held| == 3 then Where(chain, Some(th.held[2]))
    else Where(chain, th.saved)
  }

  /** After r swaps of the swapper t. */
  ghost predicate TourAt(s: State, t: Tid, chain: seq<Node>, r: nat) {
    && t in s.threads && !IsCounter(s.threads[t].at)
    && s.chain == After(chain, r)
    && (|chain| >= 3 && s.threads[t].at != Stopped ==> r % (|chain| - 2) == Due(s.chain, s.threads[t]))
  }

  lemma AtLast(chain: seq<Node>, v: Node)
    requires v in chain && Succ(chain, v) == None
    ensures Where(chain, Some(v)) == 0
  {
  }

  lemma BeforeLast(chain: seq<Node>, v: Node, w: Node)
    requires NoDup(chain) && Follows(chain, v, w) && Succ(chain, w) == None
    ensures Where(chain, Some(v)) == 0
  {
    FollowsIndex(chain, v, w);
  }

  lemma AtFirst(s: State)
    requires Inv(s)
    ensures Where(s.chain, s.first) == 0
  {
    if s.first.Some? {
      assert IndexOf(s.chain, s.chain[0]) == 0;
    }
  }

  /** A look at the next node leaves the tour where it is. */
  lemma LookTours(s: State, s': State, t: Tid)
    requires Inv(s) && t in s.threads && SwapperStep(s, s', t)
    requires s.threads[t].at == SHold || s.threads[t].at == SHold2
    ensures s'.chain == s.chain && t in s'.threads && !IsCounter(s'.threads[t].at)
    ensures Due(s'.chain, s'.threads[t]) == Due(s.chain, s.threads[t]) && s'.threads[t].at != Stopped
  {
    hide Inv;
    var held := s.threads[t].held;
    PlaceOf(s, t);
    ReadsList(s, t, held[|held| - 1]);
    if Succ(s.chain, held[|held| - 1]) == None {
      if |held| == 1 {
        AtLast(s.chain, held[0]);
      } else {
        ListSound(s);
        AtLast(s.chain, held[1]);
        BeforeLast(s.chain, held[0], held[1]);
      }
    }
  }

  lemma ListSound(s: State)
    requires Inv(s)
    ensures NoDup(s.chain)
  {
  }

  lemma RereadTours(s: State, s': State, t: Tid)
    requires Inv(s) && t in s.threads && s.threads[t].at == SWrote3 && Reread(s, s', t)
    ensures s'.chain == s.chain && t in s'.threads && s'.threads[t].at == SLeave
    ensures Due(s'.chain, s'.threads[t]) == Due(s.chain, s.threads[t])
  {
    hide Inv;
    RereadPlace(s, t);
  }

  lemma EnterTours(s: State, s': State, t: Tid)
    requires Inv(s) && t in s.threads && s.threads[t].at == SEnter && SwapperStep(s, s', t)
    ensures s'.chain == s.chain && t in s'.threads && !IsCounter(s'.threads[t].at)
    ensures s'.threads[t].at != Stopped ==> Due(s'.chain, s'.threads[t]) == 0
  {
    AtFirst(s);
    hide Inv;
    if s'.threads[t].at != Stopped {
      assert Go(s, s', t, Thread(STop, s.threads[t].held, s.first));
    }
  }

  /** The tour stays where it is. */
  ghost predicate Stays(s: State, s': State, t: Tid)
    requires t in s.threads
  {
    && s'.chain == s.chain && t in s'.threads && !IsCounter(s'.threads[t].at) && s'.threads[t].at != Stopped
    && Due(s'.chain, s'.threads[t]) == Due(s.chain, s.threads[t])
  }

  lemma TopTours(s: State, s': State, t: Tid)
    requires t in s.threads && s.threads[t].at == STop && s.threads[t].held == [] && SwapperStep(s, s', t)
    ensures Stays(s, s', t)
  {
  }

  lemma LockTours(s: State, s': State, t: Tid, at: Label)
    requires t in s.threads && Continues(s.threads[t].at, at) && !IsCounter(at) && AcquireNext(s, s', t, at)
    requires CountOk(s.threads[t].at, |s.threads[t].held|)
    ensures Stays(s, s', t)
  {
    var th := s.threads[t];
    var v := LockedNext(s, s', t, at);
    assert (th.held + [v])[0] == th.held[0];
  }

  lemma WriteTours(s: State, s': State, t: Tid)
    requires t in s.threads && (s.threads[t].at == SHold3 || s.threads[t].at == SWrote1) && SwapperStep(s, s', t)
    ensures Stays(s, s', t)
  {
  }

  lemma LeaveTours(s: State, s': State, t: Tid)
    requires t in s.threads && SwapperStep(s, s', t)
    requires s.threads[t].at == NHold || s.threads[t].at == SLeave || s.threads[t].at == NLeave
    ensures Stays(s, s', t)
  {
  }

  /** Every step but the third write leaves the tour where it is. */
  lemma StepStays(s: State, s': State, t: Tid)
    requires Inv(s) && t in s.threads && SwapperStep(s, s', t)
    requires s.threads[t].at != SEnter && s.threads[t].at != SWrote2
    ensures Stays(s, s', t)
  {
    hide Inv;
    PlaceOf(s, t);
    match s.threads[t].at
    case STop => TopTours(s, s', t);
    case SHold | SHold2 => LookTours(s, s', t);
    case SWant => LockTours(s, s', t, SHold2);
    case SWant3 => LockTours(s, s', t, SHold3);
    case NWant => LockTours(s, s', t, NLeave);
    case SHold3 | SWrote1 => WriteTours(s, s', t);
    case SWrote3 => RereadTours(s, s', t);
    case NHold | SLeave | NLeave => LeaveTours(s, s', t);
  }

  /** The third write takes the tour one swap further. */
  lemma SwapTours(s: State, s': State, t: Tid, chain: seq<Node>, r: nat)
    requires Inv(s) && t in s.threads && s.threads[t].at == SWrote2 && WriteSwap(s, s', t) && TourAt(s, t, chain, r)
    ensures |chain| >= 3 && TourAt(s', t, chain, r + 1)
  {
    hide Inv;
    PlaceOf(s, t);
    ListSound(s);
    var held := s.threads[t].held;
    var p := IndexOf(s.chain, held[0]);
    SwapChain(s.chain, held[0], held[1], held[2]);
    NextMod(r, |chain| - 2);
    FollowsIndex(s'.chain, held[0], held[2]);
    SwapFirst(s.chain, p);
  }

  lemma SwapFirst(chain: seq<Node>, p: nat)
    requires NoDup(chain) && p + 2 < |chain|
    ensures chain[p] in Swapped(chain, p) && IndexOf(Swapped(chain, p), chain[p]) == p
  {
    SwapMembers(chain, p);
    assert Swapped(chain, p)[p] == chain[p];
    assert IndexOf(Swapped(chain, p), Swapped(chain, p)[p]) == p;
  }

  lemma StepTours(s: State, s': State, t: Tid, chain: seq<Node>, r: nat) returns (r': nat)
    requires Inv(s) && t in s.threads && SwapperStep(s, s', t) && TourAt(s, t, chain, r)
    ensures TourAt(s', t, chain, r')
  {
    hide Inv;
    hide After;
    r' := r;
    if s.threads[t].at == SWrote2 {
      SwapTours(s, s', t, chain, r);
      r' := r + 1;
    } else if s.threads[t].at == SEnter {
      EnterTours(s, s', t);
    } else {
      StepStays(s, s', t);
    }
  }

  // ---- runs ----

  /** Only t swaps. */
  ghost predicate OneSwapper(s: State, t: Tid) {
    && t in s.threads && !IsCounter(s.threads[t].at)
    && forall u :: u in s.threads && u != t ==> IsCounter(s.threads[u].at) || s.threads[u].at == Stopped
  }

  lemma CounterTours(s: State, s': State, t: Tid, u: Tid, chain: seq<Node>, r: nat)
    requires OneSwapper(s, t) && u != t && u in s.threads && CounterStep(s, s', u) && TourAt(s, t, chain, r)
    ensures OneSwapper(s', t) && TourAt(s', t, chain, r)
  {
    CounterFrame(s, s', u);
    CounterKind(s, s', u);
  }

  lemma CounterKind(s: State, s': State, u: Tid)
    requires u in s.threads && CounterStep(s, s', u)
    ensures u in s'.threads && (IsCounter(s'.threads[u].at) || s'.threads[u].at == Stopped) && s'.chain == s.chain
  {
  }

  lemma NextTours(s: State, s': State, t: Tid, chain: seq<Node>, r: nat) returns (r': nat)
    requires Inv(s) && OneSwapper(s, t) && TourAt(s, t, chain, r) && Next(s, s')
    ensures OneSwapper(s', t) && TourAt(s', t, chain, r')
  {
    hide Inv;
    var u :| Step(s, s', u);
    if u == t {
      SwapperFrameOf(s, s', t);
      r' := StepTours(s, s', t, chain, r);
    } else {
      OthersCount(s, s', t, u);
      CounterTours(s, s', t, u, chain, r);
      r' := r;
    }
  }

  lemma SwapperFrameOf(s: State, s': State, t: Tid)
    requires OneSwapper(s, t) && Step(s, s', t)
    ensures SwapperStep(s, s', t) && OnlyThread(s, s', t)
  {
    SwapperFrame(s, s', t);
  }

  lemma OthersCount(s: State, s': State, t: Tid, u: Tid)
    requires OneSwapper(s, t) && u != t && Step(s, s', u)
    ensures CounterStep(s, s', u)
  {
  }

  lemma {:induction false} RunTours(run: seq<State>, t: Tid, i: nat) returns (r: nat)
    requires IsRun(run) && AtDoor(run[0], t) && OneSwapper(run[0], t) && i < |run|
    ensures OneSwapper(run[i], t) && TourAt(run[i], t, run[0].chain, r)
    decreases i
  {
    if i == 0 {
      r := 0;
    } else {
      r := RunTours(run, t, i - 1);
      var s, s', chain := run[i - 1], run[i], run[0].chain;
      assert Inv(s) by {
        RunKeeps(run, i - 1);
      }
      assert Next(s, s') by {
        assert Next(run[i - 1], run[i]);
      }
      r := NextTours(s, s', t, chain, r);
    }
  }

  /** A swapper beside any number of counters reaches the lists of its tour and no others. */
  lemma OneReachesTour(s: State, t: Tid, target: seq<Node>)
    requires Init(s) && AtDoor(s, t) && OneSwapper(s, t)
    ensures Reached(s, target) <==> exists r: nat :: target == After(s.chain, r)
  {
    if Reached(s, target) {
      var run: seq<State> :| IsRun(run) && run[0] == s && run[|run| - 1].chain == target;
      var r := RunTours(run, t, |run| - 1);
      assert target == After(s.chain, r);
    } else {
      forall r: nat
        ensures target != After(s.chain, r)
      {
        TourReached(s, t, r);
      }
    }
  }

  lemma TourReached(s: State, t: Tid, r: nat)
    requires Init(s) && AtDoor(s, t)
    ensures Reached(s, After(s.chain, r))
  {
    InitOutside(s);
    if |s.chain| >= 3 {
      var s' := Tour(s, t, r);
      LeadsReached(s, s');
    } else {
      LeadsSelf(s);
      LeadsReached(s, s);
    }
  }

  // ---- which two neighbours can be exchanged, all else as it was ----

  /** The list after q passes, in which every node has moved q places forward behind the first. */
  function Turned<T>(chain: seq<T>, q: nat): (c: seq<T>)
    requires |chain| >= 3
    ensures |c| == |chain|
  {
    seq(|chain|, x requires 0 <= x < |chain| => if x == 0 then chain[0] else chain[1 + (q + x - 1) % (|chain| - 1)])
  }

  /** The node behind the first put j places further. */
  function Delayed<T>(c: seq<T>, j: nat): seq<T>
    requires j + 2 <= |c|
  {
    c[..1] + c[2..j + 2] + [c[1]] + c[j + 2..]
  }

  lemma DelayedOnce<T>(c: seq<T>, j: nat)
    requires j + 2 < |c|
    ensures Swapped(Delayed(c, j), j) == Delayed(c, j + 1)
  {
    assert c[2..j + 3] == c[2..j + 2] + [c[j + 2]];
    assert c[j + 2..] == [c[j + 2]] + c[j + 3..];
  }

  lemma TurnedOnce<T>(chain: seq<T>, q: nat)
    requires |chain| >= 3
    ensures Delayed(Turned(chain, q), |chain| - 2) == Turned(chain, q + 1)
  {
    var m := |chain| - 1;
    var c, c1 := Turned(chain, q), Turned(chain, q + 1);
    forall x | 1 <= x < m
      ensures c[x + 1] == c1[x]
    {
      assert q + (x + 1) - 1 == q + 1 + x - 1;
    }
    assert (q + m) % m == q % m by {
      ModAgain(q, m);
    }
    assert c[1] == c1[m];
    assert Delayed(c, m - 1) == c[..1] + c[2..] + [c[1]];
  }

  lemma ModAgain(q: nat, m: nat)
    requires m > 0
    ensures (q + m) % m == q % m
  {
    var d, e := q / m, q % m;
    assert q + m == (d + 1) * m + e;
    ModOf(d + 1, m, e);
  }

  /** The tour in closed form: r == q * k + j. */
  ghost predicate IsAfter<T>(chain: seq<T>, r: nat, q: nat, j: nat)
    requires |chain| >= 3 && j + 2 <= |chain|
  {
    After(chain, r) == Delayed(Turned(chain, q), j)
  }

  lemma NextInPass<T>(chain: seq<T>, r: nat, q: nat, j: nat)
    requires |chain| >= 3 && j < |chain| - 2 && r % (|chain| - 2) == j && IsAfter(chain, r, q, j)
    ensures IsAfter(chain, r + 1, q, j + 1)
  {
    AfterOnce(chain, r, j);
    DelayedOnce(Turned(chain, q), j);
  }

  lemma PassDone<T>(chain: seq<T>, r: nat, q: nat)
    requires |chain| >= 3 && IsAfter(chain, r, q, |chain| - 2)
    ensures IsAfter(chain, r, q + 1, 0)
  {
    TurnedOnce(chain, q);
    NotDelayed(Turned(chain, q + 1));
  }

  lemma {:induction false} AfterInPass<T>(chain: seq<T>, r: nat, q: nat, j: nat)
    requires |chain| >= 3 && j <= |chain| - 2 && r == q * (|chain| - 2) && IsAfter(chain, r, q, 0)
    ensures IsAfter(chain, r + j, q, j)
    decreases j
  {
    hide IsAfter;
    if j > 0 {
      AfterInPass(chain, r, q, j - 1);
      ModOf(q, |chain| - 2, j - 1);
      NextInPass(chain, r + j - 1, q, j - 1);
    }
  }

  lemma AtStart<T>(chain: seq<T>)
    requires |chain| >= 3
    ensures IsAfter(chain, 0, 0, 0)
  {
    TurnedNot(chain);
    NotDelayed(Turned(chain, 0));
  }

  lemma OnePassLess(r: nat, q: nat, k: nat) returns (before: nat)
    requires q > 0 && r == q * k
    ensures before == (q - 1) * k && r == before + k
  {
    before := (q - 1) * k;
  }

  lemma {:induction false} AfterPasses<T>(chain: seq<T>, r: nat, q: nat)
    requires |chain| >= 3 && r == q * (|chain| - 2)
    ensures IsAfter(chain, r, q, 0)
    decreases q
  {
    hide IsAfter;
    if q == 0 {
      AtStart(chain);
    } else {
      var k := |chain| - 2;
      var before := OnePassLess(r, q, k);
      AfterPasses(chain, before, q - 1);
      AfterInPass(chain, before, q - 1, k);
      PassDone(chain, r, q - 1);
    }
  }

  lemma AfterOnce<T>(chain: seq<T>, r: nat, p: nat)
    requires |chain| >= 3 && r % (|chain| - 2) == p
    ensures After(chain, r + 1) == Swapped(After(chain, r), p)
  {
  }

  lemma NotDelayed<T>(c: seq<T>)
    requires |c| >= 3
    ensures Delayed(c, 0) == c
  {
    assert c == c[..1] + [c[1]] + c[2..];
  }

  lemma TurnedNot<T>(chain: seq<T>)
    requires |chain| >= 3
    ensures Turned(chain, 0) == chain
  {
    forall x | 1 <= x < |chain|
      ensures Turned(chain, 0)[x] == chain[x]
    {
      ModOf(0, |chain| - 1, x - 1);
    }
  }

  lemma AfterAt<T>(chain: seq<T>, r: nat) returns (q: nat, j: nat)
    requires |chain| >= 3
    ensures j < |chain| - 2 && IsAfter(chain, r, q, j)
  {
    var base;
    base, q, j := Parts(r, |chain| - 2);
    AfterPasses(chain, base, q);
    AfterInPass(chain, base, q, j);
  }

  lemma Parts(r: nat, k: nat) returns (base: nat, q: nat, j: nat)
    requires k > 0
    ensures base == q * k && r == base + j && j < k
  {
    q, j := r / k, r % k;
    base := r - j;
  }

  /** In the middle of the list no two neighbours are ever found exchanged and all else as it was. */
  lemma NotExchanged(chain: seq<Node>, r: nat, i: nat)
    requires NoDup(chain) && 0 < i && i + 3 < |chain|
    ensures After(chain, r) != Swapped(chain, i)
  {
    if After(chain, r) == Swapped(chain, i) {
      var q, j := AfterAt(chain, r);
      Distinct(chain);
      if j == 0 {
        FirstPlace(chain, q, i);
      } else {
        DelayedPlace(chain, q, j, i);
      }
    }
  }

  lemma FirstPlace(chain: seq<Node>, q: nat, i: nat)
    requires 0 < i && i + 3 < |chain|
    requires forall x, y :: 0 <= x < y < |chain| ==> chain[x] != chain[y]
    ensures Delayed(Turned(chain, q), 0) != Swapped(chain, i)
  {
    var m, c := |chain| - 1, Turned(chain, q);
    NotDelayed(c);
    assert Swapped(chain, i)[1] == chain[1] && Swapped(chain, i)[i + 1] != chain[i + 1];
    if c[1] == chain[1] {
      assert q % m == 0;
      Whole(q, i, m);
      assert c[i + 1] == chain[1 + (q + i) % m] == chain[i + 1];
    }
  }

  lemma Whole(q: nat, i: nat, m: nat)
    requires m > 0 && q % m == 0 && i < m
    ensures (q + i) % m == i
  {
    assert q == (q / m) * m;
    ModOf(q / m, m, i);
  }

  lemma DelayedPlace(chain: seq<Node>, q: nat, j: nat, i: nat)
    requires 0 < i && i + 3 < |chain| && 0 < j < |chain| - 2
    requires forall x, y :: 0 <= x < y < |chain| ==> chain[x] != chain[y]
    ensures Delayed(Turned(chain, q), j) != Swapped(chain, i)
  {
    var m, c := |chain| - 1, Turned(chain, q);
    var z := Delayed(c, j);
    assert Swapped(chain, i)[1] == chain[1] && Swapped(chain, i)[j + 1] != chain[m];
    assert z[1] == c[2] == chain[1 + (q + 1) % m] && z[j + 1] == c[1];
    if c[2] == chain[1] {
      assert (q + 1) % m == 0;
      NextMod(q, m);
      assert c[1] == chain[1 + q % m] == chain[m];
    }
  }

  /** At the front they are, after the first swap; at the end, after all passes but one and one
      pass but its last swap. */
  lemma Exchanged(chain: seq<Node>, i: nat) returns (r: nat)
    requires i + 2 < |chain| && (i == 0 || i + 3 == |chain|)
    ensures After(chain, r) == Swapped(chain, i)
  {
    if i == 0 {
      r := 1;
    } else {
      r := PassesButOne(chain);
      LastExchanged(chain);
    }
  }

  lemma PassesButOne(chain: seq<Node>) returns (r: nat)
    requires |chain| > 3
    ensures IsAfter(chain, r, |chain| - 2, |chain| - 3)
  {
    var k := |chain| - 2;
    var base := k * k;
    AfterPasses(chain, base, k);
    AfterInPass(chain, base, k, k - 1);
    r := base + (k - 1);
  }

  lemma LastExchanged(chain: seq<Node>)
    requires |chain| > 3
    ensures Delayed(Turned(chain, |chain| - 2), |chain| - 3) == Swapped(chain, |chain| - 3)
  {
    var m := |chain| - 1;
    var c := Turned(chain, m - 1);
    ModOf(0, m, m - 1);
    assert c[1] == chain[m];
    forall x | 2 <= x <= m
      ensures c[x] == chain[x - 1]
    {
      ModOf(1, m, x - 2);
    }
    var z := Delayed(c, m - 2);
    assert z == c[..1] + c[2..m] + [c[1]] + c[m..];
    forall x | 0 <= x < |chain|
      ensures z[x] == Swapped(chain, m - 2)[x]
    {
    }
  }

  ghost predicate TwoSwappers(s: State) {
    exists t, u :: t != u && AtDoor(s, t) && AtDoor(s, u)
  }

  /** Some interleaving ends with two neighbours exchanged and all else as it was exactly when they
      are the first two or the last two behind the first node, or there are two swappers. */
  lemma WhichExchanges(s: State, t: Tid, i: nat)
    requires Init(s) && AtDoor(s, t) && i + 2 < |s.chain|
    ensures Reached(s, Swapped(s.chain, i)) <==> (i == 0 || i + 3 == |s.chain| || TwoSwappers(s))
  {
    if a, b :| a != b && AtDoor(s, a) && AtDoor(s, b) {
      SwapMultiset(s.chain, i);
      TwoReachPermutations(s, a, b, Swapped(s.chain, i));
    } else {
      NoOther(s, t);
      OneReachesTour(s, t, Swapped(s.chain, i));
      if i == 0 || i + 3 == |s.chain| {
        var r := Exchanged(s.chain, i);
      } else {
        forall r: nat
          ensures Swapped(s.chain, i) != After(s.chain, r)
        {
          NotExchanged(s.chain, r, i);
        }
      }
    }
  }

  lemma NoOther(s: State, t: Tid)
    requires Init(s) && AtDoor(s, t) && !TwoSwappers(s)
    ensures OneSwapper(s, t)
  {
    forall u | u in s.threads && u != t
      ensures IsCounter(s.threads[u].at)
    {
      assert !AtDoor(s, u);
    }
  }

  /** So on five nodes one swapper never gets the middle two exchanged and the others in place. */
  lemma MiddleOfFive(s: State, t: Tid)
    requires Init(s) && AtDoor(s, t) && OneSwapper(s, t) && s.chain == [0, 1, 2, 3, 4]
    ensures !Reached(s, [0, 1, 3, 2, 4])
  {
    assert Swapped(s.chain, 1) == [0, 1, 3, 2, 4];
    forall a, b | AtDoor(s, a) && AtDoor(s, b)
      ensures a == b
    {
      assert a == t && b == t;
    }
    WhichExchanges(s, t, 1);
  }
}
