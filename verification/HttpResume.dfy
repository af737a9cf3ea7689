/**
 The countermeasure against slow senders: a caller that comes back with a longer buffer passes
 the previous length, and the parse is entered only when two adjacent line ends are found from
 three octets before it. On accepted requests and responses this changes nothing.
 */
module HttpResume {
  import opened Bytes
  import opened HttpSpec
  import opened HttpStability
  import opened HttpLocality
  import opened HttpShortcut

  /** Every CR in the stretch is followed by an LF in it. */
  ghost predicate CrSafe(b: seq<byte>, lo: nat, hi: nat)
    requires hi <= |b|
  {
    forall k :: lo <= k < hi && b[k] == CR ==> k + 1 < hi && b[k + 1] == LF
  }

  /** The stretch is made of lines: it is CR-safe and its last octet is an LF. */
  ghost predicate Lines(b: seq<byte>, lo: nat, hi: nat) {
    lo < hi <= |b| && CrSafe(b, lo, hi) && b[hi - 1] == LF
  }

  /** There is a line end at j, ending at hi, right behind another line end. */
  ghost predicate BlankLineAt(b: seq<byte>, j: nat, hi: nat) {
    0 < j < hi <= |b| && b[j - 1] == LF && Eol(b, j) == Ok((), hi)
  }

  lemma ToEolLines(b: seq<byte>, i: nat)
    requires i <= |b| && ToEol(b, i).Ok?
    ensures Lines(b, i, ToEol(b, i).next)
  {
    var j := Find(b, i, EndsLine);
    assert forall k :: i <= k < j ==> !EndsLine(b[k]);
  }

  lemma FieldNameSafe(b: seq<byte>, i: nat, continues: bool)
    requires i < |b| && FieldName(b, i, continues).Ok?
    ensures forall k :: i <= k < FieldName(b, i, continues).next ==> b[k] != CR
  {
    var name := FieldName(b, i, continues);
    if name.value.Some? {
      var j := Token(b, i, EndsName, COLON).next;
      assert forall k :: i <= k < j ==> !EndsName(b[k]);
      assert forall k :: j + 1 <= k < name.next ==> !NotBlank(b[k]);
    }
  }

  lemma FieldLineLines(b: seq<byte>, i: nat, continues: bool)
    requires i < |b| && FieldLine(b, i, continues).Ok?
    ensures Lines(b, i, FieldLine(b, i, continues).next)
  {
    FieldNameSafe(b, i, continues);
    ToEolLines(b, FieldName(b, i, continues).next);
  }

  lemma {:induction false} HeadersLines(b: seq<byte>, i: nat, n: nat, max: nat)
    requires i <= |b| && n <= max && Headers(b, i, n, max).Ok?
    requires (0 < i && b[i - 1] == LF) || (i < |b| && !StartsEol(b[i]))
    ensures var hi := Headers(b, i, n, max).next;
            Lines(b, i, hi) && exists j :: i <= j && BlankLineAt(b, j, hi)
    decreases |b| - i
  {
    var hi := Headers(b, i, n, max).next;
    if StartsEol(b[i]) {
      assert BlankLineAt(b, i, hi);
    } else {
      FieldLineLines(b, i, n != 0);
      HeadersLines(b, FieldLine(b, i, n != 0).next, n + 1, max);
    }
  }

  lemma LinesAndHeaders(b: seq<byte>, i: nat, max: nat)
    requires Lines(b, 0, i) && Headers(b, i, 0, max).Ok?
    ensures var hi := Headers(b, i, 0, max).next;
            Lines(b, 0, hi) && exists j :: BlankLineAt(b, j, hi)
  {
    HeadersLines(b, i, 0, max);
  }

  lemma TargetSafe(b: seq<byte>, i: nat)
    requires i <= |b| && Target(b, i).Ok?
    ensures forall k :: i <= k < Target(b, i).next ==> b[k] != CR
  {
    var j := Token(b, i, EndsVerb, SP).next;
    var k := Spaces(b, j).next;
    var l := Token(b, k, EndsPath, SP).next;
    assert forall x :: i <= x < j ==> !EndsVerb(b[x]);
    assert forall x :: j + 1 <= x < k ==> !NotSpace(b[x]);
    assert forall x :: k <= x < l ==> !EndsPath(b[x]);
    assert forall x :: l + 1 <= x < Target(b, i).next ==> !NotSpace(b[x]);
  }

  lemma VersionSafe(b: seq<byte>, i: nat)
    requires i <= |b| && Version(b, i).Ok?
    ensures forall k :: i <= k < i + 8 ==> b[k] != CR
  {
    assert forall k :: i <= k < i + 7 ==> b[k] == b[i..i + 7][k - i];
  }

  lemma VersionLineLines(b: seq<byte>, i: nat)
    requires i <= |b| && VersionLine(b, i).Ok?
    ensures Lines(b, i, VersionLine(b, i).next)
  {
    VersionSafe(b, i);
  }

  lemma ParseLineLines(b: seq<byte>, i: nat)
    requires i <= |b| && ParseLine(b, i).Ok?
    ensures Lines(b, i, ParseLine(b, i).next)
  {
    TargetSafe(b, i);
    VersionLineLines(b, Target(b, i).next);
  }

  lemma RequestLines(b: seq<byte>, max: nat)
    requires ParseRequest(b, max).Ok?
    ensures var hi := ParseRequest(b, max).next;
            Lines(b, 0, hi) && exists j :: BlankLineAt(b, j, hi)
  {
    var i := LeadingEol(b).next;
    ParseLineLines(b, i);
    HeadersLines(b, ParseLine(b, i).next, 0, max);
  }

  lemma StatusLineLines(b: seq<byte>)
    requires ParseStatusLine(b).Ok?
    ensures Lines(b, 0, ParseStatusLine(b).next)
  {
    VersionSafe(b, 0);
    var j := Spaces(b, 8).next;
    assert forall x :: 9 <= x < j ==> !NotSpace(b[x]);
    assert forall x :: j <= x < j + 3 ==> IsDigit(b[x]);
    ToEolLines(b, j + 3);
    assert forall x :: 0 <= x < j + 3 ==> b[x] != CR;
  }

  lemma ResponseLines(b: seq<byte>, max: nat)
    requires ParseResponse(b, max).Ok?
    ensures var hi := ParseResponse(b, max).next;
            Lines(b, 0, hi) && exists j :: BlankLineAt(b, j, hi)
  {
    StatusLineLines(b);
    LinesAndHeaders(b, ParseStatusLine(b).next, max);
  }

  /** From anywhere before the blank line, the search meets two adjacent line ends. */
  lemma {:induction false} TwoEolsFound(b: seq<byte>, i: nat, count: nat, j: nat, hi: nat)
    requires BlankLineAt(b, j, hi) && CrSafe(b, 0, hi)
    requires i <= j && count < 2 && (i == j ==> count == 1)
    ensures TwoEols(b, i, count).Ok?
    decreases j - i
  {
    if i < j {
      if StartsEol(b[i]) {
        if count == 0 {
          TwoEolsFound(b, Eol(b, i).next, 1, j, hi);
        }
      } else {
        TwoEolsFound(b, i + 1, 0, j, hi);
      }
    }
  }

  /** In a prefix of CR-safe octets the search never refuses. */
  lemma {:induction false} TwoEolsNotBad(b: seq<byte>, m: nat, i: nat, count: nat, hi: nat)
    requires i <= m <= hi <= |b| && CrSafe(b, 0, hi) && count < 2
    ensures !TwoEols(b[..m], i, count).Bad?
    decreases m - i
  {
    if i < m {
      if StartsEol(b[i]) {
        var e := Eol(b[..m], i);
        if e.Ok? && count == 0 {
          TwoEolsNotBad(b, m, e.next, 1, hi);
        }
      } else {
        TwoEolsNotBad(b, m, i + 1, 0, hi);
      }
    }
  }

  /** The shortcut lets an accepted message through, whatever earlier length it is given. */
  lemma ShortcutPasses(b: seq<byte>, j: nat, hi: nat, lastLen: nat)
    requires BlankLineAt(b, j, hi) && CrSafe(b, 0, hi) && lastLen <= hi
    ensures TwoEols(b, ScanStart(lastLen), 0).Ok?
  {
    if ScanStart(lastLen) == j {
      assert false;
    }
    TwoEolsFound(b, ScanStart(lastLen), 0, j, hi);
  }

  /** An accepted request is accepted alike with any earlier length. */
  lemma RequestShortcut(b: seq<byte>, max: nat, lastLen: nat)
    requires ParseRequest(b, max).Ok? && lastLen <= ParseRequest(b, max).next
    ensures PhrParseRequest(b, max, lastLen) == ParseRequest(b, max)
  {
    var hi := ParseRequest(b, max).next;
    RequestLines(b, max);
    var j :| BlankLineAt(b, j, hi);
    ShortcutPasses(b, j, hi, lastLen);
  }

  lemma ResponseShortcut(b: seq<byte>, max: nat, lastLen: nat)
    requires ParseResponse(b, max).Ok? && lastLen <= ParseResponse(b, max).next
    ensures PhrParseResponse(b, max, lastLen) == ParseResponse(b, max)
  {
    var hi := ParseResponse(b, max).next;
    ResponseLines(b, max);
    var j :| BlankLineAt(b, j, hi);
    ShortcutPasses(b, j, hi, lastLen);
  }

  /**
   A request that arrives in pieces, the parser being called after each piece with the length
   it had been given before: partial until the last octet of the message is there, then
   accepted with the spans a single call finds.
   */
  lemma IncrementalRequest(b: seq<byte>, max: nat, last: nat, now: nat)
    requires ParseRequest(b, max).Ok? && last <= ParseRequest(b, max).next
    requires last <= now <= |b|
    ensures PhrParseRequest(b[..now], max, last) ==
            if now < ParseRequest(b, max).next then Partial else ParseRequest(b, max)
  {
    var hi := ParseRequest(b, max).next;
    if now < hi {
      ShorterIsPartial(b, max, now);
      RequestLines(b, max);
      TwoEolsNotBad(b, now, ScanStart(last), 0, hi);
    } else {
      RequestCut(b, now, max);
      RequestShortcut(b[..now], max, last);
    }
  }

  /** Lengths that do not shrink, from last up to hi. */
  ghost predicate Growing(cuts: seq<nat>, last: nat, hi: nat) {
    if cuts == [] then last <= hi else last <= cuts[0] && Growing(cuts[1..], cuts[0], hi)
  }

  lemma {:induction false} GrowingEnds(cuts: seq<nat>, last: nat, hi: nat)
    requires Growing(cuts, last, hi)
    ensures last <= (if cuts == [] then last else cuts[|cuts| - 1]) <= hi
    decreases |cuts|
  {
    if cuts != [] {
      GrowingEnds(cuts[1..], cuts[0], hi);
    }
  }

  lemma IncrementalResponse(b: seq<byte>, max: nat, last: nat, now: nat)
    requires ParseResponse(b, max).Ok? && last <= ParseResponse(b, max).next
    requires last <= now <= |b|
    ensures PhrParseResponse(b[..now], max, last) ==
            if now < ParseResponse(b, max).next then Partial else ParseResponse(b, max)
  {
    var hi := ParseResponse(b, max).next;
    if now < hi {
      ShorterIsPartial(b, max, now);
      ResponseLines(b, max);
      TwoEolsNotBad(b, now, ScanStart(last), 0, hi);
    } else {
      ResponseCut(b, now, max);
      ResponseShortcut(b[..now], max, last);
    }
  }

  /** Calls with growing lengths, each told the previous one, until one is not partial. */
  ghost function Receive<T>(call: (nat, nat) -> Parsed<T>, last: nat, cuts: seq<nat>): Parsed<T>
    decreases |cuts|
  {
    if cuts == [] then Partial
    else if call(last, cuts[0]).Partial? then Receive(call, cuts[0], cuts[1..])
    else call(last, cuts[0])
  }

  /** Partial below the length that full consumes, full from there on. */
  ghost predicate Switches<T(!new)>(call: (nat, nat) -> Parsed<T>, full: Parsed<T>, top: nat) {
    && full.Ok?
    && forall last: nat, now: nat :: last <= full.next && last <= now <= top ==>
         call(last, now) == if now < full.next then Partial else full
  }

  lemma {:induction false} Received<T(!new)>(call: (nat, nat) -> Parsed<T>, full: Parsed<T>, last: nat,
                                             cuts: seq<nat>, top: nat)
    requires Switches(call, full, top) && last <= full.next && Growing(cuts, last, top)
    ensures Receive(call, last, cuts) ==
            if cuts != [] && full.next <= cuts[|cuts| - 1] then full else Partial
    decreases |cuts|
  {
    if cuts != [] {
      GrowingEnds(cuts[1..], cuts[0], top);
      if cuts[0] < full.next {
        Received(call, full, cuts[0], cuts[1..], top);
      }
    }
  }

  // A call sees the octets received by now, and is told how many there were before.

  ghost function RequestCalls(b: seq<byte>, max: nat): (nat, nat) -> Parsed<Request> {
    (last: nat, now: nat) => if last <= now <= |b| then PhrParseRequest(b[..now], max, last) else Partial
  }

  ghost function ResponseCalls(b: seq<byte>, max: nat): (nat, nat) -> Parsed<Response> {
    (last: nat, now: nat) => if last <= now <= |b| then PhrParseResponse(b[..now], max, last) else Partial
  }

  ghost function HeadersCalls(b: seq<byte>, max: nat): (nat, nat) -> Parsed<seq<Header>> {
    (last: nat, now: nat) => if last <= now <= |b| then PhrParseHeaders(b[..now], max, last) else Partial
  }

  lemma RequestSwitches(b: seq<byte>, max: nat)
    requires ParseRequest(b, max).Ok?
    ensures Switches(RequestCalls(b, max), ParseRequest(b, max), |b|)
  {
    forall last: nat, now: nat | last <= ParseRequest(b, max).next && last <= now <= |b|
      ensures RequestCalls(b, max)(last, now) ==
              if now < ParseRequest(b, max).next then Partial else ParseRequest(b, max)
    {
      IncrementalRequest(b, max, last, now);
    }
  }

  lemma ResponseSwitches(b: seq<byte>, max: nat)
    requires ParseResponse(b, max).Ok?
    ensures Switches(ResponseCalls(b, max), ParseResponse(b, max), |b|)
  {
    forall last: nat, now: nat | last <= ParseResponse(b, max).next && last <= now <= |b|
      ensures ResponseCalls(b, max)(last, now) ==
              if now < ParseResponse(b, max).next then Partial else ParseResponse(b, max)
    {
      IncrementalResponse(b, max, last, now);
    }
  }

  lemma HeadersSwitches(b: seq<byte>, max: nat)
    requires Headers(b, 0, 0, max).Ok? && !StartsEol(b[0])
    ensures Switches(HeadersCalls(b, max), Headers(b, 0, 0, max), |b|)
  {
    forall last: nat, now: nat | last <= Headers(b, 0, 0, max).next && last <= now <= |b|
      ensures HeadersCalls(b, max)(last, now) ==
              if now < Headers(b, 0, 0, max).next then Partial else Headers(b, 0, 0, max)
    {
      IncrementalHeaders(b, max, last, now);
    }
  }

  /** However an acceptable request arrives, it is accepted once, whole, and not before. */
  lemma ReceiveRequest(b: seq<byte>, max: nat, cuts: seq<nat>)
    requires ParseRequest(b, max).Ok? && Growing(cuts, 0, |b|)
    ensures var full := ParseRequest(b, max);
            Receive(RequestCalls(b, max), 0, cuts) ==
            if cuts != [] && full.next <= cuts[|cuts| - 1] then full else Partial
  {
    RequestSwitches(b, max);
    Received(RequestCalls(b, max), ParseRequest(b, max), 0, cuts, |b|);
  }

  lemma ReceiveResponse(b: seq<byte>, max: nat, cuts: seq<nat>)
    requires ParseResponse(b, max).Ok? && Growing(cuts, 0, |b|)
    ensures var full := ParseResponse(b, max);
            Receive(ResponseCalls(b, max), 0, cuts) ==
            if cuts != [] && full.next <= cuts[|cuts| - 1] then full else Partial
  {
    ResponseSwitches(b, max);
    Received(ResponseCalls(b, max), ParseResponse(b, max), 0, cuts, |b|);
  }

  /** The same of a header block that is not just the blank line. */
  lemma ReceiveHeaders(b: seq<byte>, max: nat, cuts: seq<nat>)
    requires Headers(b, 0, 0, max).Ok? && !StartsEol(b[0]) && Growing(cuts, 0, |b|)
    ensures var full := Headers(b, 0, 0, max);
            Receive(HeadersCalls(b, max), 0, cuts) ==
            if cuts != [] && full.next <= cuts[|cuts| - 1] then full else Partial
  {
    HeadersSwitches(b, max);
    Received(HeadersCalls(b, max), Headers(b, 0, 0, max), 0, cuts, |b|);
  }

  // ---- header blocks ----

  /** phr_parse_headers accepts a lone blank line, which the shortcut does not recognise. */
  lemma HeadersShortcutFails()
    ensures Headers([CR, LF], 0, 0, 0) == Ok([], 2)
    ensures PhrParseHeaders([CR, LF], 0, 1) == Partial
  {
    assert TwoEols([CR, LF], 2, 1).Partial?;
  }

  lemma HeadersShortcutOk(b: seq<byte>, max: nat, lastLen: nat)
    requires Headers(b, 0, 0, max).Ok? && !StartsEol(b[0]) && lastLen <= Headers(b, 0, 0, max).next
    ensures PhrParseHeaders(b, max, lastLen) == Headers(b, 0, 0, max)
  {
    var hi := Headers(b, 0, 0, max).next;
    HeadersLines(b, 0, 0, max);
    var j :| BlankLineAt(b, j, hi);
    ShortcutPasses(b, j, hi, lastLen);
  }

  /** An accepted header block is accepted alike with any earlier length exactly when it is not
      just the blank line, or when the buffer, which may hold more than the block, has two
      adjacent line ends somewhere. */
  lemma HeadersShortcut(b: seq<byte>, max: nat)
    requires Headers(b, 0, 0, max).Ok?
    ensures (forall lastLen: nat :: lastLen <= Headers(b, 0, 0, max).next ==>
               PhrParseHeaders(b, max, lastLen) == Headers(b, 0, 0, max))
            <==> (!StartsEol(b[0]) || exists n: nat :: Passes(b, 0, false, n))
  {
    TwoEolsExactly(b, 0, 0);
    OneVerdict(b, 0, false);
    if !StartsEol(b[0]) {
      forall lastLen: nat | lastLen <= Headers(b, 0, 0, max).next
        ensures PhrParseHeaders(b, max, lastLen) == Headers(b, 0, 0, max)
      {
        HeadersShortcutOk(b, max, lastLen);
      }
    } else {
      assert Headers(b, 0, 0, max).next <= 2 && ScanStart(1) == ScanStart(2) == 0;
      assert PhrParseHeaders(b, max, 1) == Headers(b, 0, 0, max) <==> TwoEols(b, 0, 0).Ok?;
    }
  }

  lemma IncrementalHeaders(b: seq<byte>, max: nat, last: nat, now: nat)
    requires Headers(b, 0, 0, max).Ok? && !StartsEol(b[0]) && last <= Headers(b, 0, 0, max).next
    requires last <= now <= |b|
    ensures PhrParseHeaders(b[..now], max, last) ==
            if now < Headers(b, 0, 0, max).next then Partial else Headers(b, 0, 0, max)
  {
    var hi := Headers(b, 0, 0, max).next;
    if now < hi {
      ShorterIsPartial(b, max, now);
      HeadersLines(b, 0, 0, max);
      TwoEolsNotBad(b, now, ScanStart(last), 0, hi);
    } else {
      HeadersCut(b, now, 0, 0, max);
      HeadersShortcutOk(b[..now], max, last);
    }
  }
}
