/**
 The search of the shortcut, told without running it: which buffers it passes, refuses or leaves
 waiting.
 */
module HttpShortcut {
  import opened Bytes
  import opened HttpSpec

  /** A line end, LF or CRLF, from i to n. */
  predicate LineEndAt(b: seq<byte>, i: nat, n: nat) {
    && i < n <= |b|
    && b[i..n] in {[10], [13, 10]}
  }

  /** A CR with something other than LF behind it. */
  predicate LoneCrAt(b: seq<byte>, p: nat) {
    p + 1 < |b| && b[p] == 13 && b[p + 1] != 10
  }

  /** Two adjacent line ends from i on, the second up to n; the first may be the one seen before i. */
  ghost predicate EndsBy(b: seq<byte>, i: nat, seen: bool, n: nat) {
    || (seen && LineEndAt(b, i, n))
    || exists j: nat, k: nat :: i <= j && LineEndAt(b, j, k) && LineEndAt(b, k, n)
  }

  ghost predicate NoLoneCr(b: seq<byte>, lo: nat, hi: nat) {
    forall p: nat :: lo <= p < hi ==> !LoneCrAt(b, p)
  }

  ghost predicate NoneEnds(b: seq<byte>, i: nat, seen: bool, hi: nat) {
    forall n: nat :: n <= hi ==> !EndsBy(b, i, seen, n)
  }

  /** The three verdicts: passed at the first two adjacent line ends, refused at a lone CR before
      them, waiting when there is neither. */
  ghost predicate Passes(b: seq<byte>, i: nat, seen: bool, n: nat) {
    0 < n && EndsBy(b, i, seen, n) && NoneEnds(b, i, seen, n - 1) && NoLoneCr(b, i, n)
  }

  ghost predicate Refuses(b: seq<byte>, i: nat, seen: bool) {
    exists p: nat :: i <= p && LoneCrAt(b, p) && NoneEnds(b, i, seen, p)
  }

  ghost predicate Waits(b: seq<byte>, i: nat, seen: bool) {
    NoLoneCr(b, i, |b|) && NoneEnds(b, i, seen, |b|)
  }

  /** What the search says from i on. */
  ghost predicate Verdict(b: seq<byte>, i: nat, seen: bool, r: Parsed<()>) {
    match r
    case Ok(_, n) => Passes(b, i, seen, n)
    case Partial => Waits(b, i, seen)
    case Bad => Refuses(b, i, seen)
  }

  lemma LineEndIs(b: seq<byte>, i: nat, n: nat)
    ensures LineEndAt(b, i, n) <==>
            n <= |b| && ((n == i + 1 && b[i] == 10) || (n == i + 2 && b[i] == 13 && b[i + 1] == 10))
  {
    if i < n <= |b| {
      assert |b[i..n]| == n - i && b[i..n][0] == b[i];
      if n == i + 1 {
        assert b[i..n] == [b[i]];
      } else if n == i + 2 {
        assert b[i..n] == [b[i], b[i + 1]];
      }
    }
  }

  /** An octet that starts no line end: what follows decides. */
  lemma Passed(b: seq<byte>, i: nat, seen: bool, n: nat)
    requires i < |b| && !StartsEol(b[i])
    ensures EndsBy(b, i, seen, n) <==> EndsBy(b, i + 1, false, n)
  {
    LineEndIs(b, i, n);
    forall k: nat
      ensures !LineEndAt(b, i, k)
    {
      LineEndIs(b, i, k);
    }
  }

  /** A line end up to m, none seen before it: what follows decides, and a line end has been seen. */
  lemma Stepped(b: seq<byte>, i: nat, m: nat, n: nat)
    requires LineEndAt(b, i, m)
    ensures EndsBy(b, i, false, n) <==> EndsBy(b, m, true, n)
  {
    LineEndIs(b, i, m);
    forall j: nat, k: nat | i <= j && LineEndAt(b, j, k) && LineEndAt(b, k, n)
      ensures EndsBy(b, m, true, n)
    {
      LineEndIs(b, j, k);
    }
  }

  /** From i on and from i' on the same ends. */
  ghost predicate SameEnds(b: seq<byte>, i: nat, seen: bool, i': nat, seen': bool) {
    forall n: nat :: EndsBy(b, i, seen, n) <==> EndsBy(b, i', seen', n)
  }

  lemma Carried(b: seq<byte>, i: nat, seen: bool, i': nat, seen': bool, r: Parsed<()>)
    requires i <= i' && NoLoneCr(b, i, i') && SameEnds(b, i, seen, i', seen') && Verdict(b, i', seen', r)
    ensures Verdict(b, i, seen, r)
  {
    assert forall hi: nat :: NoneEnds(b, i', seen', hi) ==> NoneEnds(b, i, seen, hi);
    if r.Bad? {
      var p: nat :| i' <= p && LoneCrAt(b, p) && NoneEnds(b, i', seen', p);
    }
  }

  lemma EndBehind(b: seq<byte>, i: nat, seen: bool, n: nat)
    requires EndsBy(b, i, seen, n)
    ensures i < n <= |b|
  {
  }

  lemma SecondEnd(b: seq<byte>, i: nat, m: nat)
    requires LineEndAt(b, i, m)
    ensures Passes(b, i, true, m)
  {
    LineEndIs(b, i, m);
    forall j: nat, k: nat | i <= j && LineEndAt(b, j, k)
      ensures m <= k
    {
      LineEndIs(b, j, k);
    }
  }

  lemma AtLoneCr(b: seq<byte>, i: nat, seen: bool)
    requires LoneCrAt(b, i)
    ensures Refuses(b, i, seen)
  {
    forall n: nat | n <= i
      ensures !EndsBy(b, i, seen, n)
    {
      if EndsBy(b, i, seen, n) {
        EndBehind(b, i, seen, n);
      }
    }
  }

  /** At the end of the buffer, or at a CR that is its last octet. */
  lemma AtEnd(b: seq<byte>, i: nat, seen: bool)
    requires i == |b| || (i + 1 == |b| && b[i] == 13)
    ensures Waits(b, i, seen)
  {
    forall j: nat, n: nat | i <= j
      ensures !LineEndAt(b, j, n)
    {
      LineEndIs(b, j, n);
    }
  }

  /** The search says exactly that. */
  lemma {:induction false} TwoEolsExactly(b: seq<byte>, i: nat, count: nat)
    requires i <= |b| && count < 2
    ensures Verdict(b, i, count == 1, TwoEols(b, i, count))
    decreases |b| - i
  {
    hide Verdict, NoLoneCr, SameEnds, EndsBy;
    if i == |b| || (i + 1 == |b| && b[i] == CR) {
      Ends(b, i, count);
    } else if !StartsEol(b[i]) {
      PassedAll(b, i, count == 1);
      TwoEolsExactly(b, i + 1, 0);
      Carried(b, i, count == 1, i + 1, false, TwoEols(b, i + 1, 0));
    } else if Eol(b, i).Bad? {
      Lone(b, i, count);
    } else {
      var m := Eol(b, i).next;
      LineEndIs(b, i, m);
      if count == 1 {
        Second(b, i, m);
      } else {
        SteppedAll(b, i, m);
        TwoEolsExactly(b, m, 1);
        Carried(b, i, false, m, true, TwoEols(b, m, 1));
      }
    }
  }

  lemma Ends(b: seq<byte>, i: nat, count: nat)
    requires count < 2 && (i == |b| || (i + 1 == |b| && b[i] == CR))
    ensures Verdict(b, i, count == 1, TwoEols(b, i, count))
  {
    AtEnd(b, i, count == 1);
  }

  lemma Lone(b: seq<byte>, i: nat, count: nat)
    requires count < 2 && i < |b| && StartsEol(b[i]) && Eol(b, i).Bad?
    ensures Verdict(b, i, count == 1, TwoEols(b, i, count))
  {
    AtLoneCr(b, i, count == 1);
  }

  lemma Second(b: seq<byte>, i: nat, m: nat)
    requires i < |b| && Eol(b, i) == Ok((), m) && LineEndAt(b, i, m)
    ensures Verdict(b, i, true, TwoEols(b, i, 1))
  {
    SecondEnd(b, i, m);
  }

  lemma PassedAll(b: seq<byte>, i: nat, seen: bool)
    requires i < |b| && !StartsEol(b[i])
    ensures SameEnds(b, i, seen, i + 1, false) && NoLoneCr(b, i, i + 1)
  {
    forall n: nat
      ensures EndsBy(b, i, seen, n) <==> EndsBy(b, i + 1, false, n)
    {
      Passed(b, i, seen, n);
    }
  }

  lemma SteppedAll(b: seq<byte>, i: nat, m: nat)
    requires LineEndAt(b, i, m)
    ensures SameEnds(b, i, false, m, true) && NoLoneCr(b, i, m)
  {
    LineEndIs(b, i, m);
    forall n: nat
      ensures EndsBy(b, i, false, n) <==> EndsBy(b, m, true, n)
    {
      Stepped(b, i, m, n);
    }
  }

  /** With an earlier length, a call is passed on to the full parse exactly if two adjacent line ends
      stand behind it or up to three octets before, without a lone CR in front of them. */
  lemma GuardedExactly<T>(b: seq<byte>, lastLen: nat, full: Parsed<T>)
    requires 0 < lastLen && ScanStart(lastLen) <= |b|
    ensures var i, r := ScanStart(lastLen), Guarded(b, lastLen, full);
            && (r.Ok? <==> full.Ok? && exists n: nat :: Passes(b, i, false, n))
            && (r.Partial? <==> Waits(b, i, false) || (full.Partial? && exists n: nat :: Passes(b, i, false, n)))
            && (r.Bad? <==> Refuses(b, i, false) || (full.Bad? && exists n: nat :: Passes(b, i, false, n)))
  {
    var i := ScanStart(lastLen);
    TwoEolsExactly(b, i, 0);
    OneVerdict(b, i, false);
  }

  /** No two of the verdicts fit the same buffer. */
  lemma OneVerdict(b: seq<byte>, i: nat, seen: bool)
    ensures !(Waits(b, i, seen) && Refuses(b, i, seen))
    ensures forall n: nat :: Passes(b, i, seen, n) ==> !Waits(b, i, seen) && !Refuses(b, i, seen)
  {
    forall n: nat | Passes(b, i, seen, n)
      ensures !Waits(b, i, seen) && !Refuses(b, i, seen)
    {
      EndBehind(b, i, seen, n);
    }
  }
}
