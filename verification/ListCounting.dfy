/**
 What a counter's pass amounts to. Where nobody swaps: whatever any number of counters do at the
 same time, each pass compares every pair of neighbours once, in the order of the list, and
 counts what a pass alone counts. Where somebody swaps: what is compared are neighbours then.
 */
module ListCounting {
  import opened Wrappers
  import opened ListProtocol
  import opened ListInvariant
  import opened ListPaths
  import opened ListReach
  import Storage = ListStorage

  ghost predicate CountersOnly(s: State) {
    forall t :: t in s.threads ==> IsCounter(s.threads[t].at) || s.threads[t].at == Stopped
  }

  /** The pairs of neighbours, front to back. */
  function Neighbours(chain: seq<Node>): (pairs: seq<(Node, Node)>)
    ensures |pairs| == if chain == [] then 0 else |chain| - 1
    ensures forall k :: 0 <= k < |pairs| ==> pairs[k] == (chain[k], chain[k + 1])
  {
    seq(if chain == [] then 0 else |chain| - 1, k requires 0 <= k < |chain| - 1 => (chain[k], chain[k + 1]))
  }

  /** The position of a node, the last one for NULL. */
  ghost function Place(chain: seq<Node>, v: Option<Node>): (k: nat)
    ensures k <= |Neighbours(chain)|
  {
    if v.Some? && v.value in chain then IndexOf(chain, v.value) else |Neighbours(chain)|
  }

  /** How far a counter has come in its pass. */
  ghost function Cursor(chain: seq<Node>, th: Thread): (k: nat)
    ensures k <= |Neighbours(chain)|
  {
    if th.at == CTop || th.at == CLeave || th.held == [] then Place(chain, th.saved)
    else Place(chain, Some(th.held[0]))
  }

  predicate InPass(th: Thread) {
    th.at == CTop || th.at == CHold || th.at == CWant || th.at == CPair || th.at == CLeave
  }

  predicate AtEnd(th: Thread) {
    th.at == CTop && th.saved == None
  }

  // ---- one step ----

  lemma LastPlace(chain: seq<Node>, v: Node)
    requires v in chain && Succ(chain, v) == None
    ensures Place(chain, Some(v)) == Place(chain, None)
  {
  }

  lemma NextPlaceIs(chain: seq<Node>, v: Node, w: Node)
    requires NoDup(chain) && Follows(chain, v, w)
    ensures Place(chain, Some(w)) == Place(chain, Some(v)) + 1
  {
    FollowsIndex(chain, v, w);
  }

  /** A counter that finds no next node has come to the end of the list. */
  lemma HoldMoves(s: State, s': State, t: Tid)
    requires Inv(s) && t in s.threads && s.threads[t].at == CHold
    requires Test(s, s', t, CWant, Thread(CLeave, s.threads[t].held, None))
    ensures t in s'.threads && InPass(s'.threads[t])
    ensures Cursor(s.chain, s'.threads[t]) == Cursor(s.chain, s.threads[t])
  {
    var v := s.threads[t].held[0];
    assert PlaceOk(s.chain, s.threads[t]);
    ReadsList(s, t, v);
    if Link(s, v) == None {
      LastPlace(s.chain, v);
    }
  }

  lemma PairMoves(s: State, s': State, t: Tid)
    requires Inv(s) && t in s.threads && s.threads[t].at == CPair && |s.threads[t].held| == 2
    requires Go(s, s', t, Thread(CLeave, s.threads[t].held, Some(s.threads[t].held[1])))
    ensures t in s'.threads && InPass(s'.threads[t])
    ensures Cursor(s.chain, s'.threads[t]) == Cursor(s.chain, s.threads[t]) + 1
  {
    var held := s.threads[t].held;
    assert PlaceOk(s.chain, s.threads[t]);
    NextPlaceIs(s.chain, held[0], held[1]);
  }

  /** A comparison, and nothing else, takes a counter one place further. */
  lemma CursorMoves(s: State, s': State, t: Tid)
    requires Inv(s) && t in s.threads && CounterStep(s, s', t)
    requires InPass(s.threads[t]) && !AtEnd(s.threads[t])
    ensures t in s'.threads && InPass(s'.threads[t])
    ensures Cursor(s.chain, s'.threads[t]) == Cursor(s.chain, s.threads[t]) + if s.threads[t].at == CPair then 1 else 0
  {
    match s.threads[t].at
    case CHold => HoldMoves(s, s', t);
    case CPair => PairMoves(s, s', t);
    case _ => LockMoves(s, s', t);
  }

  /** Taking and giving back locks moves the cursor of no counter. */
  lemma LockMoves(s: State, s': State, t: Tid)
    requires Inv(s) && t in s.threads && CounterStep(s, s', t)
    requires InPass(s.threads[t]) && !AtEnd(s.threads[t]) && s.threads[t].at != CHold && s.threads[t].at != CPair
    ensures t in s'.threads && InPass(s'.threads[t])
    ensures Cursor(s.chain, s'.threads[t]) == Cursor(s.chain, s.threads[t])
  {
    var th := s.threads[t];
    assert PlaceOk(s.chain, th);
    match th.at
    case CTop => assert th.held + [th.saved.value] == [th.saved.value];
    case CWant => assert s'.threads[t].held[0] == th.held[0];
    case CLeave =>
  }

  /** A counter at a comparison is at the pair its cursor says. */
  lemma PairAtCursor(s: State, t: Tid)
    requires Inv(s) && t in s.threads && s.threads[t].at == CPair
    ensures var th := s.threads[t]; var k := Cursor(s.chain, th);
            |th.held| == 2 && k < |Neighbours(s.chain)| && Neighbours(s.chain)[k] == (th.held[0], th.held[1])
  {
    ComparedPairAdjacent(s, t);
    var th := s.threads[t];
    assert PlaceOk(s.chain, th);
    FollowsIndex(s.chain, th.held[0], th.held[1]);
  }

  // ---- runs ----

  lemma CountersStay(s: State, s': State, u: Tid)
    requires CountersOnly(s) && Step(s, s', u)
    ensures CounterStep(s, s', u) && CountersOnly(s') && s'.chain == s.chain
  {
    assert IsCounter(s.threads[u].at) || s.threads[u].at == Stopped;
    CounterFrame(s, s', u);
  }

  lemma CountersNext(s: State, s': State)
    requires CountersOnly(s) && Next(s, s')
    ensures CountersOnly(s') && s'.chain == s.chain
  {
    var u :| Step(s, s', u);
    CountersStay(s, s', u);
  }

  lemma {:induction false} ListStays(run: seq<State>, i: nat)
    requires IsRun(run) && CountersOnly(run[0]) && i < |run|
    ensures CountersOnly(run[i]) && run[i].chain == run[0].chain
    decreases i
  {
    if i > 0 {
      ListStays(run, i - 1);
      assert Next(run[i - 1], run[i]);
      CountersNext(run[i - 1], run[i]);
    }
  }

  /** t is at a comparison and makes it. */
  ghost predicate Compares(s: State, s': State, t: Tid) {
    && t in s.threads && s.threads[t].at == CPair && |s.threads[t].held| == 2
    && t in s'.threads && s'.threads[t].at != CPair
  }

  /** The pairs t compares from state i to state j. */
  ghost function Compared(run: seq<State>, t: Tid, i: nat, j: nat): seq<(Node, Node)>
    requires i <= j < |run|
    decreases j
  {
    if i == j then []
    else
      Compared(run, t, i, j - 1) +
      if Compares(run[j - 1], run[j], t) then [(run[j - 1].threads[t].held[0], run[j - 1].threads[t].held[1])] else []
  }

  /** What t compares is the pair at its cursor, which moves on by one. */
  ghost predicate Advances(chain: seq<Node>, s: State, s': State, t: Tid)
    requires t in s.threads && t in s'.threads
  {
    var pairs, k := Neighbours(chain), Cursor(chain, s.threads[t]);
    if Compares(s, s', t)
    then && k < |pairs| && Cursor(chain, s'.threads[t]) == k + 1
         && (s.threads[t].held[0], s.threads[t].held[1]) == pairs[k]
    else Cursor(chain, s'.threads[t]) == k
  }

  /** What a step, whoever takes it, adds to what t has compared. */
  lemma StepCompares(s: State, s': State, t: Tid, u: Tid)
    requires Inv(s) && CountersOnly(s) && Step(s, s', u)
    requires t in s.threads && InPass(s.threads[t]) && t in s'.threads && InPass(s'.threads[t])
    ensures Advances(s.chain, s, s', t)
  {
    CountersStay(s, s', u);
    CounterFrame(s, s', u);
    if u == t {
      if s.threads[t].at == CPair {
        PairAtCursor(s, t);
      }
      CursorMoves(s, s', t);
    }
  }

  /** A state of a run of counters. */
  ghost predicate Counting(s: State, chain: seq<Node>) {
    Inv(s) && CountersOnly(s) && s.chain == chain
  }

  lemma OfCounters(run: seq<State>, i: nat)
    requires IsRun(run) && CountersOnly(run[0]) && i < |run|
    ensures Counting(run[i], run[0].chain)
  {
    RunKeeps(run, i);
    ListStays(run, i);
  }

  lemma NextAdvances(s: State, s': State, t: Tid, chain: seq<Node>)
    requires Counting(s, chain) && Next(s, s')
    requires t in s.threads && InPass(s.threads[t]) && t in s'.threads && InPass(s'.threads[t])
    ensures Advances(chain, s, s', t)
  {
    var u :| Step(s, s', u);
    StepCompares(s, s', t, u);
  }

  lemma RunAdvances(run: seq<State>, t: Tid, j: nat)
    requires IsRun(run) && CountersOnly(run[0]) && 0 < j < |run|
    requires t in run[j - 1].threads && InPass(run[j - 1].threads[t])
    requires t in run[j].threads && InPass(run[j].threads[t])
    ensures Advances(run[0].chain, run[j - 1], run[j], t)
  {
    var s, s', chain := run[j - 1], run[j], run[0].chain;
    assert Counting(s, chain) by {
      OfCounters(run, j - 1);
    }
    assert Next(s, s') by {
      assert Next(run[j - 1], run[j]);
    }
    NextAdvances(s, s', t, chain);
  }

  lemma PassStarts(s: State, th: Thread)
    requires Inv(s) && th.at == CTop && th.saved == s.first
    ensures Cursor(s.chain, th) == 0
  {
  }

  /** The states from i to j find t in its pass. */
  ghost predicate OnePass(run: seq<State>, t: Tid, i: nat, j: nat)
    requires i <= j < |run|
  {
    forall k :: i <= k <= j ==> t in run[k].threads && InPass(run[k].threads[t])
  }

  ghost predicate AdvancesAlong(run: seq<State>, chain: seq<Node>, t: Tid, i: nat, j: nat)
    requires i <= j < |run| && OnePass(run, t, i, j)
  {
    forall k {:trigger Advances(chain, run[k - 1], run[k], t)} :: i < k <= j ==> Advances(chain, run[k - 1], run[k], t)
  }

  lemma {:induction false} CursorCounts(run: seq<State>, chain: seq<Node>, t: Tid, i: nat, j: nat)
    requires i <= j < |run| && OnePass(run, t, i, j) && AdvancesAlong(run, chain, t, i, j)
    requires Cursor(chain, run[i].threads[t]) == 0
    ensures Compared(run, t, i, j) == Neighbours(chain)[..Cursor(chain, run[j].threads[t])]
    decreases j
  {
    if i < j {
      CursorCounts(run, chain, t, i, j - 1);
      assert Advances(chain, run[j - 1], run[j], t);
      PrefixGrows(Neighbours(chain), Cursor(chain, run[j - 1].threads[t]));
    }
  }

  lemma RunStarts(run: seq<State>, t: Tid, i: nat)
    requires IsRun(run) && CountersOnly(run[0]) && i < |run|
    requires t in run[i].threads && run[i].threads[t].at == CTop && run[i].threads[t].saved == run[i].first
    ensures Cursor(run[0].chain, run[i].threads[t]) == 0
  {
    RunKeeps(run, i);
    ListStays(run, i);
    PassStarts(run[i], run[i].threads[t]);
  }

  /** From the start of a pass on, a counter has compared the neighbours up to its cursor, each
      once and in order; at the end of the pass, all of them. */
  lemma PassComparesAll(run: seq<State>, t: Tid, i: nat, j: nat)
    requires IsRun(run) && CountersOnly(run[0]) && i <= j < |run| && OnePass(run, t, i, j)
    requires run[i].threads[t].at == CTop && run[i].threads[t].saved == run[i].first
    ensures var pairs := Neighbours(run[0].chain);
            && Compared(run, t, i, j) == pairs[..Cursor(run[0].chain, run[j].threads[t])]
            && (AtEnd(run[j].threads[t]) ==> Compared(run, t, i, j) == pairs)
  {
    forall k | i < k <= j
      ensures Advances(run[0].chain, run[k - 1], run[k], t)
    {
      RunAdvances(run, t, k);
    }
    RunStarts(run, t, i);
    CursorCounts(run, run[0].chain, t, i, j);
  }

  lemma PrefixGrows<T>(s: seq<T>, k: nat)
    requires k <= |s|
    ensures k < |s| ==> s[..k + 1] == s[..k] + [s[k]]
    ensures s[..|s|] == s
  {
  }

  // ---- whole passes ----

  /** The first node's link is never in the middle of being written. */
  lemma FirstLink(s: State)
    requires Inv(s) && s.chain != []
    ensures s.first == Some(s.chain[0]) && Link(s, s.chain[0]) == Succ(s.chain, s.chain[0])
  {
    forall t | t in s.threads
      ensures !IsDirty(s.threads[t], s.chain[0])
    {
      PlaceOf(s, t);
      NotFirst(s.chain, s.threads[t]);
    }
    assert Clean(s, s.chain[0]);
  }

  lemma NotFirst(chain: seq<Node>, th: Thread)
    requires NoDup(chain) && chain != [] && PlaceOk(chain, th)
    ensures !IsDirty(th, chain[0])
  {
    assert IndexOf(chain, chain[0]) == 0;
    if th.at == SWrote1 || th.at == SWrote2 {
      StretchIndex(chain, th.held);
    }
  }

  /** Whatever the others are doing, a counter goes on to its first pass exactly when the list has two nodes. */
  lemma EntersIffTwo(s: State, s': State, t: Tid)
    requires Inv(s) && t in s.threads && s.threads[t].at == CEnter && Step(s, s', t)
    ensures t in s'.threads && s'.threads[t].at == if |s.chain| >= 2 then CRestart else Stopped
  {
    assert s.first == None <==> s.chain == [];
    if s.chain != [] {
      FirstLink(s);
      Neighbouring(s.chain, 0);
    }
  }

  /** t begins a pass at i and is back at the beginning at j, and not in between. */
  ghost predicate WholePass(run: seq<State>, t: Tid, i: nat, j: nat)
    requires i + 1 < j < |run|
  {
    && (forall k :: i <= k <= j ==> t in run[k].threads)
    && run[i].threads[t].at == CRestart && run[j].threads[t].at == CRestart
    && forall k :: i < k < j ==> run[k].threads[t].at != CRestart
  }

  /** Where a pass begins, goes on and ends. */
  lemma PassStep(s: State, s': State, t: Tid, chain: seq<Node>)
    requires Counting(s, chain) && Next(s, s') && t in s.threads && t in s'.threads
    ensures s.threads[t].at == CRestart && s'.threads[t].at != CRestart ==>
              s'.threads[t].at == CTop && s'.threads[t].saved == s'.first
    ensures InPass(s.threads[t]) && s'.threads[t].at != CRestart ==> InPass(s'.threads[t])
    ensures InPass(s.threads[t]) && s'.threads[t].at == CRestart ==> AtEnd(s.threads[t])
  {
    var u :| Step(s, s', u);
    CountersStay(s, s', u);
    CounterFrame(s, s', u);
    if u == t && InPass(s.threads[t]) && !AtEnd(s.threads[t]) {
      CursorMoves(s, s', t);
    }
  }

  lemma RunPassStep(run: seq<State>, t: Tid, j: nat)
    requires IsRun(run) && CountersOnly(run[0]) && 0 < j < |run|
    requires t in run[j - 1].threads && t in run[j].threads
    ensures var s, s' := run[j - 1], run[j];
            && (s.threads[t].at == CRestart && s'.threads[t].at != CRestart ==>
                  s'.threads[t].at == CTop && s'.threads[t].saved == s'.first)
            && (InPass(s.threads[t]) && s'.threads[t].at != CRestart ==> InPass(s'.threads[t]))
            && (InPass(s.threads[t]) && s'.threads[t].at == CRestart ==> AtEnd(s.threads[t]))
  {
    var s, s', chain := run[j - 1], run[j], run[0].chain;
    assert Counting(s, chain) by {
      OfCounters(run, j - 1);
    }
    assert Next(s, s') by {
      assert Next(run[j - 1], run[j]);
    }
    PassStep(s, s', t, chain);
  }

  lemma {:induction false} InPassBetween(run: seq<State>, t: Tid, i: nat, j: nat, k: nat)
    requires IsRun(run) && CountersOnly(run[0]) && i + 1 < j < |run| && WholePass(run, t, i, j) && i < k < j
    ensures InPass(run[k].threads[t])
    decreases k
  {
    if k > i + 1 {
      InPassBetween(run, t, i, j, k - 1);
    }
    RunPassStep(run, t, k);
  }

  lemma {:induction false} ComparedSplit(run: seq<State>, t: Tid, i: nat, m: nat, j: nat)
    requires i <= m <= j < |run|
    ensures Compared(run, t, i, j) == Compared(run, t, i, m) + Compared(run, t, m, j)
    decreases j
  {
    if m < j {
      ComparedSplit(run, t, i, m, j - 1);
    }
  }

  /** From one beginning of a pass to the next a counter has compared the whole list, each pair of
      neighbours once and in order, whatever any number of counters do at the same time. */
  lemma WholePassComparesAll(run: seq<State>, t: Tid, i: nat, j: nat)
    requires IsRun(run) && CountersOnly(run[0]) && i + 1 < j < |run| && WholePass(run, t, i, j)
    ensures Compared(run, t, i, j) == Neighbours(run[0].chain)
  {
    forall k | i + 1 <= k <= j - 1
      ensures InPass(run[k].threads[t])
    {
      InPassBetween(run, t, i, j, k);
    }
    assert run[i + 1].threads[t].at == CTop && run[i + 1].threads[t].saved == run[i + 1].first by {
      RunPassStep(run, t, i + 1);
    }
    assert AtEnd(run[j - 1].threads[t]) by {
      RunPassStep(run, t, j);
    }
    assert Compared(run, t, i + 1, j - 1) == Neighbours(run[0].chain) by {
      PassComparesAll(run, t, i + 1, j - 1);
    }
    ComparedEnds(run, t, i, j);
  }

  lemma ComparedEnds(run: seq<State>, t: Tid, i: nat, j: nat)
    requires i + 1 < j < |run| && WholePass(run, t, i, j) && AtEnd(run[j - 1].threads[t])
    ensures Compared(run, t, i, j) == Compared(run, t, i + 1, j - 1)
  {
    hide Compared;
    ComparedSplit(run, t, i, i + 1, j);
    ComparedSplit(run, t, i + 1, j - 1, j);
    ComparesNothing(run, t, i);
    ComparesNothing(run, t, j - 1);
  }

  lemma ComparesNothing(run: seq<State>, t: Tid, k: nat)
    requires k + 1 < |run| && t in run[k].threads && run[k].threads[t].at != CPair
    ensures Compared(run, t, k, k + 1) == []
  {
    assert Compared(run, t, k, k) == [];
  }

  // ---- and they are made ----

  /** A counter about to begin. */
  predicate AtGate(s: State, t: Tid) {
    t in s.threads && s.threads[t] == Thread(CEnter, [], None)
  }

  lemma OpenGate(s: State, t: Tid) returns (s': State)
    requires Outside(s) && AtGate(s, t) && |s.chain| >= 2
    ensures Came(s, s', t) && s'.chain == s.chain && s'.threads[t] == Thread(CRestart, [], None)
  {
    FirstLink(s);
    Neighbouring(s.chain, 0);
    hide Inv;
    OutsideLone(s, t);
    s' := Jump(s, s, t, Thread(CRestart, [], None));
  }

  lemma StartPass(s0: State, s: State, t: Tid) returns (s': State)
    requires Came(s0, s, t) && s.chain != [] && s.threads[t] == Thread(CRestart, [], None)
    ensures Came(s0, s', t) && s'.chain == s.chain && s'.threads[t] == Thread(CTop, [], Some(s.chain[0]))
  {
    hide Inv;
    FirstIs(s, t);
    s' := Jump(s0, s, t, Thread(CTop, [], s.first));
  }

  /** Of every list of two nodes or more a counter, beside whatever others, can come to compare any
      pair of neighbours. */
  lemma EveryPairCompared(s: State, t: Tid, k: nat) returns (run: seq<State>)
    requires Init(s) && AtGate(s, t) && k + 1 < |s.chain|
    ensures IsRun(run) && run[0] == s
    ensures var s' := run[|run| - 1];
            t in s'.threads && s'.threads[t].at == CPair && s'.threads[t].held == [s.chain[k], s.chain[k + 1]]
  {
    InitOutside(s);
    hide Inv;
    var s1 := OpenGate(s, t);
    var s2 := StartPass(s, s1, t);
    var s3 := GoesTo(s, s2, t, k);
    var s4 := LockPair(s, s3, t, k);
    run := LeadsRun(s, s4);
  }

  lemma StaysThere(run: seq<State>, t: Tid, k: nat)
    requires IsPath(run) && k < |run| && t in run[0].threads
    ensures t in run[k].threads
    decreases k
  {
    if k > 0 {
      StaysThere(run, t, k - 1);
      assert Next(run[k - 1], run[k]);
      var u :| Step(run[k - 1], run[k], u);
      StepFrame(run[k - 1], run[k], u);
    }
  }

  /** The last beginning of a pass before m. */
  lemma {:induction false} LastBegin(run: seq<State>, t: Tid, i: nat, m: nat) returns (a: nat)
    requires i < m < |run| && forall k :: 0 <= k < |run| ==> t in run[k].threads
    requires run[i].threads[t].at == CRestart
    ensures i <= a < m && run[a].threads[t].at == CRestart
    ensures forall k :: a < k < m ==> run[k].threads[t].at != CRestart
    decreases m
  {
    if run[m - 1].threads[t].at == CRestart {
      a := m - 1;
    } else {
      a := LastBegin(run, t, i, m - 1);
    }
  }

  /** The next beginning of a pass behind m. */
  lemma {:induction false} NextBegin(run: seq<State>, t: Tid, m: nat, j: nat) returns (b: nat)
    requires m < j < |run| && forall k :: 0 <= k < |run| ==> t in run[k].threads
    requires run[j].threads[t].at == CRestart
    ensures m < b <= j && run[b].threads[t].at == CRestart
    ensures forall k :: m < k < b ==> run[k].threads[t].at != CRestart
    decreases j - m
  {
    if run[m + 1].threads[t].at == CRestart {
      b := m + 1;
    } else {
      b := NextBegin(run, t, m + 1, j);
    }
  }

  lemma Join(run: seq<State>, path: seq<State>)
    requires IsPath(run) && IsPath(path) && run[|run| - 1] == path[0]
    ensures IsPath(run + path[1..])
  {
    var more := run + path[1..];
    forall k | 0 < k < |more|
      ensures Next(more[k - 1], more[k])
    {
      if k < |run| {
        assert Next(run[k - 1], run[k]);
      } else {
        var l := k - |run| + 1;
        assert Next(path[l - 1], path[l]);
      }
    }
  }

  /** A path through three states. */
  lemma Through(s: State, s1: State, s2: State, s3: State) returns (run: seq<State>, i: nat, m: nat)
    requires Leads(s, s1) && Leads(s1, s2) && Leads(s2, s3) && s1 != s2 && s2 != s3
    ensures IsPath(run) && run[0] == s && i < m < |run| - 1 && run[i] == s1 && run[m] == s2 && run[|run| - 1] == s3
  {
    var p1: seq<State> :| IsPath(p1) && p1[0] == s && p1[|p1| - 1] == s1;
    var p2: seq<State> :| IsPath(p2) && p2[0] == s1 && p2[|p2| - 1] == s2;
    var p3: seq<State> :| IsPath(p3) && p3[0] == s2 && p3[|p3| - 1] == s3;
    Join(p1, p2);
    var p12 := p1 + p2[1..];
    assert p12[|p12| - 1] == s2;
    Join(p12, p3);
    run, i, m := p12 + p3[1..], |p1| - 1, |p12| - 1;
  }

  /** The states of a pass: where it begins, where it is under way, and where the next begins. */
  lemma PassStates(s: State, t: Tid) returns (s1: State, s2: State, s3: State)
    requires Outside(s) && AtGate(s, t) && |s.chain| >= 2
    ensures Leads(s, s1) && Leads(s1, s2) && Leads(s2, s3)
    ensures t in s1.threads && s1.threads[t].at == CRestart
    ensures t in s2.threads && s2.threads[t].at == CTop
    ensures t in s3.threads && s3.threads[t].at == CRestart
  {
    hide Inv;
    s1 := OpenGate(s, t);
    s2, s3 := PassOn(s1, t);
  }

  lemma PassOn(s1: State, t: Tid) returns (s2: State, s3: State)
    requires Lone(s1, t) && s1.threads[t] == Thread(CRestart, [], None) && s1.chain != []
    ensures Leads(s1, s2) && Leads(s2, s3)
    ensures t in s2.threads && s2.threads[t].at == CTop
    ensures t in s3.threads && s3.threads[t].at == CRestart
  {
    hide Inv;
    CameSelf(s1, t);
    var s4 := StartPass(s1, s1, t);
    var s5 := GoesTo(s1, s4, t, |s1.chain| - 1);
    s2 := LastCompared(s1, s5, t);
    s3 := NextBegins(s2, t);
  }

  lemma NextBegins(s: State, t: Tid) returns (s': State)
    requires Lone(s, t) && s.threads[t] == Thread(CTop, [], None)
    ensures Leads(s, s') && t in s'.threads && s'.threads[t].at == CRestart
  {
    hide Inv;
    CameSelf(s, t);
    s' := Jump(s, s, t, Thread(CRestart, [], None));
  }

  lemma {:induction false} GoesTo(s0: State, s: State, t: Tid, k: nat) returns (s': State)
    requires Came(s0, s, t) && k < |s.chain| && s.threads[t] == Thread(CTop, [], Some(s.chain[0]))
    ensures Came(s0, s', t) && s'.chain == s.chain && s'.threads[t] == Thread(CTop, [], Some(s.chain[k]))
    decreases k
  {
    hide Inv;
    if k == 0 {
      s' := s;
    } else {
      var s1 := GoesTo(s0, s, t, k - 1);
      var pair;
      pair, s' := CompareRound(s0, s1, t, k - 1);
    }
  }

  /** On every list of two nodes or more a counter, beside whatever others, can make a whole pass. */
  lemma PassHappens(s: State, t: Tid) returns (run: seq<State>, i: nat, j: nat)
    requires Init(s) && AtGate(s, t) && |s.chain| >= 2
    ensures IsRun(run) && run[0] == s && i + 1 < j < |run| && WholePass(run, t, i, j)
  {
    InitOutside(s);
    var s1, s2, s3 := PassStates(s, t);
    var a, m;
    run, a, m := Through(s, s1, s2, s3);
    forall k | 0 <= k < |run|
      ensures t in run[k].threads
    {
      StaysThere(run, t, k);
    }
    i := LastBegin(run, t, a, m);
    j := NextBegin(run, t, m, |run| - 1);
  }

  // ---- what is counted ----

  /** Beside swappers too, every pair a counter compares is one of neighbours when it does. */
  lemma {:induction false} ComparedAreNeighbours(run: seq<State>, t: Tid, i: nat, j: nat, m: nat)
    requires IsRun(run) && i <= j < |run| && m < |Compared(run, t, i, j)|
    ensures exists k :: i <= k < j && Compared(run, t, i, j)[m] in Neighbours(run[k].chain)
    decreases j
  {
    var before := Compared(run, t, i, j - 1);
    if m < |before| {
      ComparedAreNeighbours(run, t, i, j - 1, m);
      var k :| i <= k < j - 1 && before[m] in Neighbours(run[k].chain);
      assert Compared(run, t, i, j)[m] in Neighbours(run[k].chain);
    } else {
      RunKeeps(run, j - 1);
      PairAtCursor(run[j - 1], t);
      assert Compared(run, t, i, j)[m] in Neighbours(run[j - 1].chain);
    }
  }

  /** How many of the pairs satisfy the comparison. */
  ghost function Tally(pairs: seq<(Node, Node)>, values: seq<string>, compare: (string, string) -> bool): nat {
    if pairs == [] then 0
    else
      var n := |pairs| - 1;
      var (v, w) := pairs[n];
      Tally(pairs[..n], values, compare) +
      if v < |values| && w < |values| && compare(values[v], values[w]) then 1 else 0
  }

  lemma {:induction false} TallyNeighbours(values: seq<string>, compare: (string, string) -> bool, k: nat)
    requires k < |values| || (k == 0 == |values|)
    ensures Tally(Neighbours(Storage.Numbers(|values|))[..k], values, compare) == Storage.PairsUpTo(values, compare, k)
    decreases k
  {
    var pairs := Neighbours(Storage.Numbers(|values|));
    if k > 0 {
      TallyNeighbours(values, compare, k - 1);
      assert pairs[..k][..k - 1] == pairs[..k - 1];
      assert pairs[k - 1] == (k - 1, k);
    }
  }

  lemma TallyAll(values: seq<string>, compare: (string, string) -> bool)
    ensures Tally(Neighbours(Storage.Numbers(|values|)), values, compare) ==
            Storage.PairsUpTo(values, compare, if values == [] then 0 else |values| - 1)
  {
    var pairs := Neighbours(Storage.Numbers(|values|));
    assert pairs[..|pairs|] == pairs;
    TallyNeighbours(values, compare, |pairs|);
  }

  /** On a list built from some values a pass among counters counts what a pass alone counts. */
  lemma PassCountsAsAlone(run: seq<State>, t: Tid, i: nat, j: nat,
                          values: seq<string>, compare: (string, string) -> bool)
    requires IsRun(run) && CountersOnly(run[0]) && i <= j < |run| && OnePass(run, t, i, j)
    requires run[i].threads[t].at == CTop && run[i].threads[t].saved == run[i].first && AtEnd(run[j].threads[t])
    requires run[0].chain == Storage.Numbers(|values|)
    ensures Tally(Compared(run, t, i, j), values, compare) ==
            Storage.PairsUpTo(values, compare, if values == [] then 0 else |values| - 1)
  {
    assert Compared(run, t, i, j) == Neighbours(Storage.Numbers(|values|)) by {
      PassComparesAll(run, t, i, j);
    }
    TallyAll(values, compare);
  }
}
