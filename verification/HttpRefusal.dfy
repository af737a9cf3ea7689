/**
 Refused and unfinished. A header block is refused exactly when no continuation makes it
 acceptable. Of a start line that is not so: three checks wait for octets that cannot help any
 more, and exactly these delay a refusal.
 */
module HttpRefusal {
  import opened Bytes
  import opened Wrappers
  import opened HttpSpec
  import opened HttpMessages
  import opened HttpGrammar
  import opened HttpStability

  // ---- completing what is unfinished ----

  lemma FindEnds(b: seq<byte>, i: nat, stop: byte -> bool, e: seq<byte>)
    requires i <= |b| && Find(b, i, stop) == |b| && e != [] && stop(e[0])
    ensures Find(b + e, i, stop) == |b|
  {
    FindIs(b + e, i, stop, |b|);
  }

  lemma ToEolEnds(b: seq<byte>, i: nat, more: seq<byte>)
    requires i <= |b| && ToEol(b, i).Partial?
    ensures var r := ToEol(b + ([LF] + more), i);
            r.Ok? && r.next == |b| + 1 && (i < |b| && !EndsLine(b[i]) ==> r.value.len > 0)
  {
    var e := [LF] + more;
    var j := Find(b, i, EndsLine);
    if j == |b| {
      FindEnds(b, i, EndsLine, e);
    } else {
      FindKept(b, e, i, EndsLine);
    }
  }

  /** What completes a field line whose name is there. */
  lemma ValueEnds(b: seq<byte>, i: nat, continues: bool)
    requires i < |b| && FieldLine(b, i, continues).Partial? && FieldName(b, i, continues).Ok?
    ensures var r := FieldLine(b + [LF], i, continues); r.Ok? && r.next == |b| + 1
  {
    assert [LF] + [] == [LF];
    FieldNameKept(b, [LF], i, continues);
    hide FieldName, ToEol;
    ToEolEnds(b, FieldName(b, i, continues).next, []);
  }

  /** What completes a field line whose blanks behind the colon run to the end. */
  lemma BlanksRunOn(b: seq<byte>, i: nat, continues: bool)
    requires i < |b| && FieldName(b, i, continues).Partial? && Token(b, i, EndsName, COLON).Ok?
    ensures var r := FieldLine(b + [LF], i, continues); r.Ok? && r.next == |b| + 1
  {
    TokenKept(b, [LF], i, EndsName, COLON);
    FindEnds(b, Token(b, i, EndsName, COLON).next + 1, NotBlank, [LF]);
    LineAtEnd(b, [LF]);
    hide Token, Find, ToEol;
  }

  lemma NameRunsOn(b: seq<byte>, i: nat, continues: bool)
    requires i < |b| && FieldName(b, i, continues).Partial? && Token(b, i, EndsName, COLON).Partial?
    ensures var r := FieldLine(b + [COLON, LF], i, continues); r.Ok? && r.next == |b| + 2
  {
    var c := b + [COLON, LF];
    FindEnds(b, i, EndsName, [COLON, LF]);
    FindIs(c, |b| + 1, NotBlank, |b| + 1);
    assert c == (b + [COLON]) + [LF];
    LineAtEnd(b + [COLON], [LF]);
    assert Token(c, i, EndsName, COLON) == Ok(Span(i, |b| - i), |b|);
    hide Token, Find, ToEol;
  }

  /** What completes a field line. */
  lemma FieldLineEnds(b: seq<byte>, i: nat, continues: bool) returns (e: seq<byte>)
    requires i < |b| && FieldLine(b, i, continues).Partial?
    ensures var r := FieldLine(b + e, i, continues); r.Ok? && r.next == |b + e|
  {
    e := if FieldName(b, i, continues).Ok? || Token(b, i, EndsName, COLON).Ok? then [LF] else [COLON, LF];
    if FieldName(b, i, continues).Ok? {
      ValueEnds(b, i, continues);
    } else if Token(b, i, EndsName, COLON).Ok? {
      BlanksRunOn(b, i, continues);
    } else {
      NameRunsOn(b, i, continues);
    }
  }

  lemma LineAtEnd(b: seq<byte>, e: seq<byte>)
    requires e == [LF]
    ensures ToEol(b + e, |b|) == Ok(Span(|b|, 0), |b| + 1)
  {
    FindIs(b + e, |b|, EndsLine, |b|);
  }

  /** A header block that is unfinished can be completed. */
  lemma {:induction false} HeadersEnd(b: seq<byte>, i: nat, n: nat, max: nat) returns (e: seq<byte>)
    requires i <= |b| && n <= max && Headers(b, i, n, max).Partial?
    ensures Headers(b + e, i, n, max).Ok?
    decreases |b| - i
  {
    if i == |b| || StartsEol(b[i]) {
      e := [LF];
    } else {
      var line := FieldLine(b, i, n != 0);
      if line.Ok? {
        e := HeadersEnd(b, line.next, n + 1, max);
        FieldLineKept(b, e, i, n != 0);
      } else {
        var f := FieldLineEnds(b, i, n != 0);
        e := f + [LF];
        assert b + e == (b + f) + [LF];
        FieldLineKept(b + f, [LF], i, n != 0);
      }
    }
  }

  /** A header block is refused exactly when no continuation makes it acceptable. */
  lemma HeadersRefusedExactlyHopeless(b: seq<byte>, i: nat, n: nat, max: nat)
    requires i <= |b| && n <= max
    ensures Headers(b, i, n, max).Bad? <==> forall e :: !Headers(b + e, i, n, max).Ok?
  {
    if Headers(b, i, n, max).Bad? {
      forall e
        ensures !Headers(b + e, i, n, max).Ok?
      {
        HeadersKept(b, e, i, n, max);
      }
    } else if Headers(b, i, n, max).Partial? {
      var e := HeadersEnd(b, i, n, max);
    } else {
      assert b + [] == b;
    }
  }

  // ---- requests ----

  /** A prefix of "HTTP/1." and a digit. */
  predicate VersionBegun(t: seq<byte>) {
    && |t| <= 8
    && forall k :: 0 <= k < |t| ==> if k < 7 then t[k] == Ascii("HTTP/1.")[k] else IsDigit(t[k])
  }

  /** What a version lacks behind its first n octets. */
  function VersionRest(n: nat): (e: seq<byte>)
    requires n <= 8
    ensures |e| == 8 - n
  {
    Ascii("HTTP/1.0")[n..]
  }

  lemma VersionEnds(b: seq<byte>, i: nat, more: seq<byte>)
    requires i <= |b| && VersionBegun(b[i..]) && more != []
    ensures var c := b + (VersionRest(|b| - i) + more);
            |c| == i + 8 + |more| && Version(c, i).Ok? && c[i + 8..] == more
  {
    var c := b + (VersionRest(|b| - i) + more);
    assert HTTP1 == Ascii("HTTP/1.");
    forall k | 0 <= k < 8
      ensures if k < 7 then c[i + k] == HTTP1[k] else IsDigit(c[i + k])
    {
      if i + k < |b| {
        assert c[i + k] == b[i..][k];
      } else {
        assert c[i + k] == Ascii("HTTP/1.0")[k];
      }
    }
    assert c[i..i + 7] == HTTP1;
  }

  /** The version that stands at i is not one, whatever may follow. */
  lemma NoVersion(b: seq<byte>, i: nat, e: seq<byte>)
    requires i <= |b| && |b| - i <= 8 && !VersionBegun(b[i..])
    ensures !Version(b + e, i).Ok?
  {
    var c := b + e;
    assert HTTP1 == Ascii("HTTP/1.");
    assert forall k :: 0 <= k < |b| - i ==> b[i..][k] == c[i + k];
    if |c| - i >= 9 {
      var h := c[i..i + 7];
      assert forall k :: 0 <= k < 7 ==> h[k] == c[i + k];
    }
  }

  /** The target is complete at n and something other than a space follows. */
  ghost predicate TargetEndsAt(b: seq<byte>, i: nat, n: nat) {
    i <= |b| && Target(b, i).Ok? && Target(b, i).next == n
  }

  lemma SpacesEnd(b: seq<byte>, j: nat, v: seq<byte>)
    requires j < |b| && Spaces(b, j).Partial? && v != [] && v[0] != SP
    ensures Spaces(b + v, j) == Ok((), |b|)
  {
    FindEnds(b, j + 1, NotSpace, v);
  }

  lemma OneSpace(b: seq<byte>, j: nat)
    requires j + 1 < |b| && b[j + 1] != SP
    ensures Spaces(b, j) == Ok((), j + 1)
  {
  }

  lemma OneOctetPath(b: seq<byte>, k: nat)
    requires k + 1 < |b| && b[k] == 47 && b[k + 1] == SP
    ensures Token(b, k, EndsPath, SP) == Ok(Span(k, 1), k + 1)
  {
    FindIs(b, k, EndsPath, k + 1);
  }

  lemma VerbEnds(b: seq<byte>, i: nat, v: seq<byte>)
    requires i < |b| && Token(b, i, EndsVerb, SP).Partial? && v != [] && v[0] != SP
    ensures TargetEndsAt(b + ([SP, 47, SP] + v), i, |b| + 3)
  {
    var e := [SP, 47, SP] + v;
    FindEnds(b, i, EndsVerb, e);
    OneSpace(b + e, |b|);
    OneOctetPath(b + e, |b| + 1);
    OneSpace(b + e, |b| + 2);
    hide Token, Spaces, Find;
    TargetSteps(b + e, i, |b| - i, |b| + 1, 1, |b| + 3);
  }

  /** What completes method and path, in front of a version. */
  lemma TargetEnds(b: seq<byte>, i: nat, v: seq<byte>) returns (e: seq<byte>)
    requires i <= |b| && Target(b, i).Partial? && (i < |b| ==> b[i] != SP) && v != [] && v[0] != SP
    ensures TargetEndsAt(b + (e + v), i, |b + e|)
  {
    var verb := Token(b, i, EndsVerb, SP);
    if i == |b| {
      e := [65, SP, 47, SP];
      assert b + (e + v) == (b + [65]) + ([SP, 47, SP] + v);
      FindIsEnd(b, 65, i);
      VerbEnds(b + [65], i, v);
    } else if verb.Partial? {
      e := [SP, 47, SP];
      VerbEnds(b, i, v);
    } else {
      e := PathEnds(b, i, v);
    }
  }

  lemma FindIsEnd(b: seq<byte>, c: byte, i: nat)
    requires i == |b| && !EndsVerb(c)
    ensures Token(b + [c], i, EndsVerb, SP).Partial?
  {
    assert Find(b + [c], i + 1, EndsVerb) == i + 1;
  }

  lemma PathEnds(b: seq<byte>, i: nat, v: seq<byte>) returns (e: seq<byte>)
    requires i < |b| && Target(b, i).Partial? && Token(b, i, EndsVerb, SP).Ok? && b[i] != SP
    requires v != [] && v[0] != SP
    ensures TargetEndsAt(b + (e + v), i, |b + e|)
  {
    var verb := Token(b, i, EndsVerb, SP);
    var gap := Spaces(b, verb.next);
    if gap.Partial? {
      e := [47, SP];
      var c := b + (e + v);
      TokenKept(b, e + v, i, EndsVerb, SP);
      SpacesEnd(b, verb.next, e + v);
      OneOctetPath(c, |b|);
      OneSpace(c, |b| + 1);
      hide Token, Spaces;
      TargetSteps(c, i, verb.value.len, |b|, 1, |b| + 2);
    } else {
      e := if Token(b, gap.next, EndsPath, SP).Partial? then [SP] else [];
      hide Token, Spaces, Target;
      if e == [] {
        assert e + v == v;
        SpacesRunOn(b, i, v);
      } else {
        PathRunsOn(b, i, v);
      }
    }
  }

  /** The path runs to the end of the buffer. */
  lemma PathRunsOn(b: seq<byte>, i: nat, v: seq<byte>)
    requires i < |b| && Token(b, i, EndsVerb, SP).Ok? && b[i] != SP
    requires var j := Token(b, i, EndsVerb, SP).next;
             Spaces(b, j).Ok? && Token(b, Spaces(b, j).next, EndsPath, SP).Partial?
    requires v != [] && v[0] != SP
    ensures TargetEndsAt(b + ([SP] + v), i, |b| + 1)
  {
    var e := [SP] + v;
    var verb := Token(b, i, EndsVerb, SP);
    var k := Spaces(b, verb.next).next;
    TokenKept(b, e, i, EndsVerb, SP);
    SpacesKept(b, e, verb.next);
    FindEnds(b, k, EndsPath, e);
    OneSpace(b + e, |b|);
    hide Token, Spaces;
    TargetSteps(b + e, i, verb.value.len, k, |b| - k, |b| + 1);
  }

  /** The spaces behind the path do. */
  lemma SpacesRunOn(b: seq<byte>, i: nat, v: seq<byte>)
    requires i < |b| && Target(b, i).Partial? && Token(b, i, EndsVerb, SP).Ok? && b[i] != SP
    requires var j := Token(b, i, EndsVerb, SP).next;
             Spaces(b, j).Ok? && Token(b, Spaces(b, j).next, EndsPath, SP).Ok?
    requires v != [] && v[0] != SP
    ensures TargetEndsAt(b + v, i, |b|)
  {
    var verb := Token(b, i, EndsVerb, SP);
    var k := Spaces(b, verb.next).next;
    var path := Token(b, k, EndsPath, SP);
    TokenKept(b, v, i, EndsVerb, SP);
    SpacesKept(b, v, verb.next);
    TokenKept(b, v, k, EndsPath, SP);
    SpacesEnd(b, path.next, v);
    assert path.value.len > 0;
    hide Token, Spaces;
    TargetSteps(b + v, i, verb.value.len, k, path.value.len, |b|);
  }

  /** The request cannot become acceptable any more, but that is not looked at yet: there is no
      method, or the few octets behind the path are not how a version begins. */
  predicate RequestDoomed(b: seq<byte>) {
    && LeadingEol(b).Ok?
    && var i := LeadingEol(b).next;
       || (i < |b| && b[i] == SP)
       || (Target(b, i).Ok? && |b| - Target(b, i).next <= 8 && !VersionBegun(b[Target(b, i).next..]))
  }

  lemma DoomedNeverAccepted(b: seq<byte>, e: seq<byte>, max: nat)
    requires RequestDoomed(b)
    ensures !ParseRequest(b + e, max).Ok?
  {
    var i := LeadingEol(b).next;
    LeadingEolKept(b, e);
    if i < |b| && b[i] == SP {
      FindIs(b + e, i, EndsVerb, i);
      assert !Target(b + e, i).Ok?;
    } else {
      hide LeadingEol, Target, Version, VersionBegun;
      TargetKept(b, e, i);
      NoVersion(b, Target(b, i).next, e);
    }
  }

  lemma BlankLineAtEnd(b: seq<byte>, i: nat, max: nat)
    requires i + 1 == |b| && b[i] == LF
    ensures Headers(b, i, 0, max) == Ok([], |b|)
  {
  }

  /** The request line from i to j, and the blank line behind it ends the buffer. */
  lemma HeadAndBlankLine(b: seq<byte>, i: nat, j: nat, max: nat)
    requires LeadingEol(b) == Ok((), i) && TargetEndsAt(b, i, j)
    requires VersionLine(b, j).Ok? && VersionLine(b, j).next + 1 == |b| && b[|b| - 1] == LF
    ensures ParseRequest(b, max).Ok?
  {
    hide Target, VersionLine, LeadingEol;
    BlankLineAtEnd(b, |b| - 1, max);
  }

  lemma LeadingEolKept(b: seq<byte>, e: seq<byte>)
    ensures Kept(LeadingEol(b), LeadingEol(b + e))
  {
  }

  const TWO_EOLS: seq<byte> := [LF, LF]

  lemma VersionLineEnds(b: seq<byte>, j: nat) returns (e: seq<byte>)
    requires j <= |b| && VersionLine(b, j).Partial? && (|b| - j <= 8 ==> VersionBegun(b[j..]))
    ensures var r := VersionLine(b + e, j); r.Ok? && r.next + 1 == |b + e| && (b + e)[|b + e| - 1] == LF
  {
    if |b| - j <= 8 {
      e := VersionRest(|b| - j) + TWO_EOLS;
      VersionEnds(b, j, TWO_EOLS);
      VersionThenEols(b + e, j);
    } else {
      e := TWO_EOLS;
      VersionKept(b, e, j);
    }
  }

  lemma VersionThenEols(b: seq<byte>, j: nat)
    requires j <= |b| && Version(b, j).Ok? && b[j + 8..] == TWO_EOLS
    ensures var r := VersionLine(b, j); r.Ok? && r.next + 1 == |b| && b[|b| - 1] == LF
  {
    assert b[j + 8] == b[j + 8..][0] && b[j + 9] == b[j + 8..][1];
  }

  /** What completes a request behind the empty line. */
  lemma RequestHeadEnds(b: seq<byte>, max: nat) returns (e: seq<byte>)
    requires LeadingEol(b).Ok? && RequestHead(b).Partial? && !RequestDoomed(b)
    ensures ParseRequest(b + e, max).Ok?
  {
    var i := LeadingEol(b).next;
    if Target(b, i).Ok? {
      e := LineEndsHere(b, i, max);
    } else {
      e := LineEndsLater(b, i, max);
    }
  }

  lemma LineEndsHere(b: seq<byte>, i: nat, max: nat) returns (e: seq<byte>)
    requires LeadingEol(b) == Ok((), i) && Target(b, i).Ok? && VersionLine(b, Target(b, i).next).Partial?
    requires var j := Target(b, i).next; |b| - j <= 8 ==> VersionBegun(b[j..])
    ensures ParseRequest(b + e, max).Ok?
  {
    hide LeadingEol, Target, VersionLine, ParseRequest, VersionBegun;
    e := VersionLineEnds(b, Target(b, i).next);
    TargetKept(b, e, i);
    LeadingEolKept(b, e);
    HeadAndBlankLine(b + e, i, Target(b, i).next, max);
  }

  lemma LineEndsLater(b: seq<byte>, i: nat, max: nat) returns (e: seq<byte>)
    requires LeadingEol(b) == Ok((), i) && Target(b, i).Partial? && (i < |b| ==> b[i] != SP)
    ensures ParseRequest(b + e, max).Ok?
  {
    var v := VersionRest(0) + TWO_EOLS;
    assert v[0] != SP;
    hide LeadingEol, Target, VersionLine, ParseRequest, VersionRest;
    var t := TargetEnds(b, i, v);
    e := t + v;
    LeadingEolKept(b, e);
    VersionLineAppended(b, t, v);
    HeadAndBlankLine(b + e, i, |b + t|, max);
  }

  lemma VersionLineAppended(b: seq<byte>, t: seq<byte>, v: seq<byte>)
    requires v == VersionRest(0) + TWO_EOLS
    ensures var c := b + (t + v); var r := VersionLine(c, |b + t|);
            r.Ok? && r.next + 1 == |c| && c[|c| - 1] == LF
  {
    assert b + (t + v) == (b + t) + v;
    hide VersionLine, VersionRest;
    VersionAppended(b + t, v);
  }

  lemma VersionAppended(b: seq<byte>, v: seq<byte>)
    requires v == VersionRest(0) + TWO_EOLS
    ensures var r := VersionLine(b + v, |b|);
            r.Ok? && r.next + 1 == |b + v| && (b + v)[|b + v| - 1] == LF
  {
    VersionEnds(b, |b|, TWO_EOLS);
    VersionThenEols(b + v, |b|);
  }

  lemma EmptyLineEnds(b: seq<byte>, max: nat) returns (e: seq<byte>)
    requires LeadingEol(b).Partial?
    ensures ParseRequest(b + e, max).Ok?
  {
    var first: seq<byte> := [if b == [] then 65 else LF];
    var c := b + first;
    LeadingEnds(b, c);
    hide LeadingEol, RequestHead, ParseRequest, RequestDoomed;
    var f := RequestHeadEnds(c, max);
    e := first + f;
    Associative(b, first, f);
  }

  lemma Associative(x: seq<byte>, y: seq<byte>, z: seq<byte>)
    ensures (x + y) + z == x + (y + z)
  {
  }

  lemma LeadingEnds(b: seq<byte>, c: seq<byte>)
    requires LeadingEol(b).Partial? && c == b + [if b == [] then 65 else LF]
    ensures LeadingEol(c).Ok? && RequestHead(c).Partial? && !RequestDoomed(c)
  {
    if b == [] {
      FindIsEnd(b, 65, 0);
    }
    assert Token(c, LeadingEol(c).next, EndsVerb, SP).Partial?;
  }

  /** What completes a request. */
  lemma RequestEnds(b: seq<byte>, max: nat) returns (e: seq<byte>)
    requires ParseRequest(b, max).Partial? && !RequestDoomed(b)
    ensures ParseRequest(b + e, max).Ok?
  {
    if LeadingEol(b).Partial? {
      e := EmptyLineEnds(b, max);
    } else if RequestHead(b).Ok? {
      var i := LeadingEol(b).next;
      e := HeadersEnd(b, RequestHead(b).next, 0, max);
      ParseLineKept(b, e, i);
      LeadingEolKept(b, e);
    } else {
      e := RequestHeadEnds(b, max);
    }
  }

  /** A request can still become acceptable exactly if it is neither refused nor doomed. */
  lemma RequestHopelessExactly(b: seq<byte>, max: nat)
    ensures (exists e :: ParseRequest(b + e, max).Ok?) <==> !ParseRequest(b, max).Bad? && !RequestDoomed(b)
  {
    forall e | ParseRequest(b + e, max).Ok?
      ensures !ParseRequest(b, max).Bad? && !RequestDoomed(b)
    {
      RequestKept(b, e, max);
      if RequestDoomed(b) {
        DoomedNeverAccepted(b, e, max);
      }
    }
    if ParseRequest(b, max).Partial? && !RequestDoomed(b) {
      var e := RequestEnds(b, max);
    } else if ParseRequest(b, max).Ok? {
      assert b + [] == b;
    }
  }

  /** A space in front of the method: no continuation is accepted, and none is refused yet. */
  lemma DoomedNotRefused(max: nat)
    ensures ParseRequest([SP], max).Partial? && RequestDoomed([SP])
  {
  }

  // ---- responses ----

  /** The response cannot become acceptable any more, but that is not looked at yet: the few octets
      there are not how a version begins, or a status, or no space stands behind the status. */
  predicate ResponseDoomed(b: seq<byte>) {
    if |b| <= 8 then !VersionBegun(b)
    else
      && Version(b, 0).Ok? && Spaces(b, 8).Ok?
      && var n := Spaces(b, 8).next;
         || (exists k :: n <= k < n + 3 && k < |b| && !IsDigit(b[k]))
         || (n + 3 < |b| && b[n + 3] != SP && !StartsEol(b[n + 3]))
  }

  lemma DoomedResponseNeverAccepted(b: seq<byte>, e: seq<byte>, max: nat)
    requires ResponseDoomed(b)
    ensures !ParseResponse(b + e, max).Ok?
  {
    if |b| <= 8 {
      assert b[0..] == b;
      NoVersion(b, 0, e);
    } else {
      VersionKept(b, e, 0);
      SpacesKept(b, e, 8);
      NoStatus(b, Spaces(b, 8).next, e);
    }
  }

  lemma NoStatus(b: seq<byte>, n: nat, e: seq<byte>)
    requires n <= |b|
    requires || (exists k :: n <= k < n + 3 && k < |b| && !IsDigit(b[k]))
             || (n + 3 < |b| && b[n + 3] != SP && !StartsEol(b[n + 3]))
    ensures var s := Status(b + e, n); s.Ok? ==> !Reason(b + e, s.next).Ok?
  {
    var c := b + e;
    if exists k :: n <= k < n + 3 && k < |b| && !IsDigit(b[k]) {
      var k :| n <= k < n + 3 && k < |b| && !IsDigit(b[k]);
      assert c[k] == b[k];
    } else {
      assert c[n + 3] == b[n + 3];
    }
  }

  /** What a status line lacks behind the first n octets of its status, and a blank line. */
  function StatusRest(n: nat): (e: seq<byte>)
    requires n <= 3
    ensures |e| == 5 - n
  {
    Ascii("200\n\n")[n..]
  }

  lemma StatusEnds(b: seq<byte>, n: nat)
    requires n <= |b| <= n + 3 && forall k :: n <= k < |b| ==> IsDigit(b[k])
    ensures var c := b + StatusRest(|b| - n);
            |c| == n + 5 && c[n + 4] == LF && Status(c, n).Ok? && Reason(c, n + 3) == Ok(Span(n + 3, 0), n + 4)
  {
    var c := b + StatusRest(|b| - n);
    forall k | |b| <= k < n + 5
      ensures c[k] == Ascii("200\n\n")[k - n]
    {
    }
    assert c[n + 3] == LF && c[n + 4] == LF;
  }

  /** A status line whose status is at n, and the blank line behind it ends the buffer. */
  lemma StatusLineAndBlankLine(b: seq<byte>, n: nat, max: nat)
    requires Version(b, 0).Ok? && b[8] == SP && Spaces(b, 8) == Ok((), n) && Status(b, n).Ok?
    requires var r := Reason(b, n + 3); r.Ok? && r.next + 1 == |b| && b[|b| - 1] == LF
    ensures ParseResponse(b, max).Ok?
  {
    hide Version, Spaces, Status, Reason;
    BlankLineAtEnd(b, |b| - 1, max);
  }

  lemma ResponseVersionEnds(b: seq<byte>, max: nat) returns (e: seq<byte>)
    requires |b| <= 8 && VersionBegun(b)
    ensures ParseResponse(b + e, max).Ok?
  {
    var v := VersionRest(|b|) + [SP];
    e := VersionRest(|b|) + ([SP] + StatusRest(0));
    assert b[0..] == b;
    VersionEnds(b, 0, [SP] + StatusRest(0));
    assert b + e == (b + v) + StatusRest(0);
    StatusEnds(b + v, 9);
    assert (b + e)[8] == SP && (b + e)[9] != SP;
    OneSpace(b + e, 8);
    StatusLineAndBlankLine(b + e, 9, max);
  }

  lemma StatusLineEnds(b: seq<byte>, max: nat) returns (e: seq<byte>)
    requires Version(b, 0).Ok? && ParseStatusLine(b).Partial? && !ResponseDoomed(b)
    ensures ParseResponse(b + e, max).Ok?
  {
    var gap := Spaces(b, 8);
    if gap.Partial? {
      e := StatusRest(0);
      VersionKept(b, e, 0);
      SpacesEnd(b, 8, e);
      StatusEnds(b, |b|);
      StatusLineAndBlankLine(b + e, |b|, max);
    } else if |b| - gap.next < 4 {
      e := StatusRest(|b| - gap.next);
      VersionKept(b, e, 0);
      SpacesKept(b, e, 8);
      StatusEnds(b, gap.next);
      StatusLineAndBlankLine(b + e, gap.next, max);
    } else {
      e := TWO_EOLS;
      VersionKept(b, e, 0);
      SpacesKept(b, e, 8);
      ReasonEnds(b, gap.next + 3);
      StatusLineAndBlankLine(b + e, gap.next, max);
    }
  }

  lemma ReasonEnds(b: seq<byte>, i: nat)
    requires i < |b| && Reason(b, i).Partial? && (b[i] == SP || StartsEol(b[i]))
    ensures var r := Reason(b + TWO_EOLS, i);
            r.Ok? && r.next + 1 == |b + TWO_EOLS| && (b + TWO_EOLS)[|b| + 1] == LF
  {
    ToEolEnds(b, i, [LF]);
    assert [LF] + [LF] == TWO_EOLS;
    if StartsEol(b[i]) {
      FindIs(b + TWO_EOLS, i, EndsLine, i);
    }
  }

  lemma ResponseEnds(b: seq<byte>, max: nat) returns (e: seq<byte>)
    requires ParseResponse(b, max).Partial? && !ResponseDoomed(b)
    ensures ParseResponse(b + e, max).Ok?
  {
    if |b| <= 8 {
      e := ResponseVersionEnds(b, max);
    } else if ParseStatusLine(b).Partial? {
      e := StatusLineEnds(b, max);
    } else {
      e := HeadersEnd(b, ParseStatusLine(b).next, 0, max);
      StatusLineKept(b, e);
    }
  }

  lemma ResponseHopelessExactly(b: seq<byte>, max: nat)
    ensures (exists e :: ParseResponse(b + e, max).Ok?) <==> !ParseResponse(b, max).Bad? && !ResponseDoomed(b)
  {
    hide ResponseDoomed;
    forall e | ParseResponse(b + e, max).Ok?
      ensures !ParseResponse(b, max).Bad? && !ResponseDoomed(b)
    {
      ResponseKept(b, e, max);
      if ResponseDoomed(b) {
        DoomedResponseNeverAccepted(b, e, max);
      }
    }
    if ParseResponse(b, max).Partial? && !ResponseDoomed(b) {
      var e := ResponseEnds(b, max);
    } else if ParseResponse(b, max).Ok? {
      assert b + [] == b;
    }
  }

  // ---- malformed messages ----

  /** The field lines ls and one more than there is room for. */
  lemma TooManyHeaders(b: seq<byte>, i: nat, ls: seq<FieldLineText>, rest: seq<byte>)
    requires LinesOk(ls, false) && Reads(b, i, PrintLines(ls, rest)) && rest != [] && !StartsEol(rest[0])
    ensures Headers(b, i, 0, |ls|).Bad?
  {
    LinesRead(b, i, 0, |ls|, ls, rest);
  }

  /** A field line that is refused, behind good ones. */
  lemma BadLineBehind(b: seq<byte>, i: nat, max: nat, ls: seq<FieldLineText>, rest: seq<byte>)
    requires LinesOk(ls, false) && |ls| < max && Reads(b, i, PrintLines(ls, rest))
    requires rest != [] && !StartsEol(rest[0])
    requires forall j :: Reads(b, j, rest) ==> FieldLine(b, j, ls != []).Bad?
    ensures Headers(b, i, 0, max).Bad?
  {
    hide FieldLine, LinesOk, PrintLines;
    LinesRead(b, i, 0, max, ls, rest);
    var j := |b| - |rest|;
    assert b[j] == Rest(b, j)[0];
  }

  lemma ControlEndsValue(b: seq<byte>, k: nat, text: seq<byte>, c: byte, rest: seq<byte>)
    requires forall x :: 0 <= x < |text| ==> IsFieldOctet(text[x])
    requires !IsFieldOctet(c) && c != LF && (c == CR ==> rest != [] && rest[0] != LF)
    requires Reads(b, k, text + ([c] + rest))
    ensures ToEol(b, k).Bad?
  {
    var j := k + |text|;
    assert Find(b, k, EndsLine) == j < |b| && Reads(b, j, [c] + rest) && b[j] == c by {
      FindReads(b, k, EndsLine, text, [c] + rest);
    }
    assert rest != [] ==> j + 1 < |b| && b[j + 1] == rest[0] by {
      Advance(b, j, [c], rest);
    }
  }

  lemma ControlEndsLine(
    b: seq<byte>, j: nat, continues: bool, name: seq<byte>, before: seq<byte>, text: seq<byte>, c: byte,
    rest: seq<byte>)
    requires IsToken(name) && AllBlank(before)
    requires (forall k :: 0 <= k < |text| ==> IsFieldOctet(text[k])) && (text != [] ==> !IsSpaceOrTab(text[0]))
    requires !IsFieldOctet(c) && c != LF && (c == CR ==> rest != [] && rest[0] != LF)
    requires Reads(b, j, PrintName(name, before, text + ([c] + rest)))
    ensures FieldLine(b, j, continues).Bad?
  {
    hide PrintName, IsToken, AllBlank, Rest, FieldName, ToEol;
    var tail := text + ([c] + rest);
    assert tail != [] && !IsSpaceOrTab(tail[0]) by {
      assert tail[0] == if text == [] then c else text[0];
    }
    NameReads(b, j, continues, name, before, tail);
    ControlEndsValue(b, FieldName(b, j, continues).next, text, c, rest);
  }

  lemma NameStarts(name: seq<byte>, before: seq<byte>, more: seq<byte>)
    requires IsToken(name)
    ensures var t := PrintName(name, before, more); t != [] && !StartsEol(t[0])
  {
    assert PrintName(name, before, more)[0] == name[0];
  }

  /** A control octet other than HT in a field value, neither LF nor a CR in front of LF. */
  lemma ControlInValue(
    b: seq<byte>, i: nat, max: nat, ls: seq<FieldLineText>, name: seq<byte>, before: seq<byte>,
    text: seq<byte>, c: byte, rest: seq<byte>)
    requires LinesOk(ls, false) && |ls| < max && IsToken(name) && AllBlank(before)
    requires (forall k :: 0 <= k < |text| ==> IsFieldOctet(text[k])) && (text != [] ==> !IsSpaceOrTab(text[0]))
    requires !IsFieldOctet(c) && c != LF && (c == CR ==> rest != [] && rest[0] != LF)
    requires Reads(b, i, PrintLines(ls, PrintName(name, before, text + ([c] + rest))))
    ensures Headers(b, i, 0, max).Bad?
  {
    var line := PrintName(name, before, text + ([c] + rest));
    forall j | Reads(b, j, line)
      ensures FieldLine(b, j, ls != []).Bad?
    {
      ControlEndsLine(b, j, ls != [], name, before, text, c, rest);
    }
    NameStarts(name, before, text + ([c] + rest));
    BadLineBehind(b, i, max, ls, line);
  }

  lemma BadNameAt(b: seq<byte>, j: nat, continues: bool, text: seq<byte>, c: byte, rest: seq<byte>)
    requires forall k :: 0 <= k < |text| ==> IsTchar(text[k])
    requires if text == [] then continues ==> !IsSpaceOrTab(c) else c != COLON
    requires !IsTchar(c) && Reads(b, j, text + ([c] + rest))
    ensures FieldLine(b, j, continues).Bad?
  {
    assert Token(b, j, EndsName, COLON) == if c == COLON then Ok(Span(j, 0), j) else Bad by {
      FindReads(b, j, EndsName, text, [c] + rest);
    }
    assert j < |b| && (continues ==> !IsBlank(b[j])) by {
      Advance(b, j, text, [c] + rest);
    }
  }

  /** An octet that is neither of a token nor a colon in a field name, or no name at all. */
  lemma BadName(
    b: seq<byte>, i: nat, max: nat, ls: seq<FieldLineText>, text: seq<byte>, c: byte, rest: seq<byte>)
    requires LinesOk(ls, false) && |ls| < max && (forall k :: 0 <= k < |text| ==> IsTchar(text[k]))
    requires if text == [] then c != CR && c != LF && (ls != [] ==> !IsSpaceOrTab(c)) else c != COLON
    requires !IsTchar(c)
    requires Reads(b, i, PrintLines(ls, text + ([c] + rest)))
    ensures Headers(b, i, 0, max).Bad?
  {
    var line := text + ([c] + rest);
    forall j | Reads(b, j, line)
      ensures FieldLine(b, j, ls != []).Bad?
    {
      BadNameAt(b, j, ls != [], text, c, rest);
    }
    assert line[0] == if text == [] then c else text[0];
    BadLineBehind(b, i, max, ls, line);
  }

  /** Nine octets that do not begin with a version. */
  lemma BadVersion(b: seq<byte>, i: nat)
    requires i + 9 <= |b| && !VersionBegun(b[i..i + 8])
    ensures Version(b, i).Bad?
  {
    assert HTTP1 == Ascii("HTTP/1.");
    var t, h := b[i..i + 8], b[i..i + 7];
    assert forall k :: 0 <= k < 8 ==> t[k] == b[i + k];
    assert forall k :: 0 <= k < 7 ==> h[k] == b[i + k];
  }

  lemma BadVersionRefused(b: seq<byte>, m: RequestForm, max: nat, rest: seq<byte>)
    requires RequestHeadOk(m) && |rest| >= 9 && rest[0] != SP && !VersionBegun(rest[..8])
    requires b == PrintLeading(m.leading, PrintTarget(m.verb, m.spaces1, m.path, m.spaces2, rest))
    ensures ParseRequest(b, max).Bad?
  {
    hide LeadingEol, Target, Version, VersionBegun, PrintTarget, PrintLeading, RequestHeadOk, Headers, Text;
    TargetStarts(m, rest);
    LeadingReads(b, m.leading, PrintTarget(m.verb, m.spaces1, m.path, m.spaces2, rest));
    var i := LeadingEol(b).next;
    TargetReads(b, i, m, rest);
    BadVersionReads(b, Target(b, i).next, rest);
  }

  lemma BadVersionReads(b: seq<byte>, j: nat, rest: seq<byte>)
    requires |rest| >= 9 && !VersionBegun(rest[..8]) && Reads(b, j, rest)
    ensures Version(b, j).Bad?
  {
    assert b[j..j + 8] == Rest(b, j)[..8];
    BadVersion(b, j);
  }

  lemma BadVersionResponse(b: seq<byte>, max: nat)
    requires |b| >= 9 && !VersionBegun(b[..8])
    ensures ParseResponse(b, max).Bad?
  {
    assert b[0..8] == b[..8];
    BadVersion(b, 0);
  }

  /** A control octet in a path. */
  lemma ControlInPath(
    b: seq<byte>, leading: Option<bool>, verb: seq<byte>, spaces1: nat, path: seq<byte>, c: byte, rest: seq<byte>,
    max: nat)
    requires IsToken(verb) && spaces1 > 0 && (forall k :: 0 <= k < |path| ==> IsPathOctet(path[k]))
    requires !IsPathOctet(c) && c != SP
    requires b == PrintLeading(leading, PrintWord(verb, spaces1, path + ([c] + rest)))
    ensures ParseRequest(b, max).Bad?
  {
    hide LeadingEol, Token, Spaces, PrintWord, PrintLeading, Headers, Rest, IsToken;
    var tail := path + ([c] + rest);
    assert tail != [] && tail[0] != SP by {
      assert tail[0] == if path == [] then c else path[0];
    }
    VerbStarts(verb, spaces1, tail);
    LeadingReads(b, leading, PrintWord(verb, spaces1, tail));
    var i := LeadingEol(b).next;
    VerbReads(b, i, verb, spaces1, tail);
    ControlEndsPath(b, i + |verb| + spaces1, path, c, rest);
  }

  lemma VerbStarts(verb: seq<byte>, n: nat, more: seq<byte>)
    requires IsToken(verb)
    ensures var t := PrintWord(verb, n, more); t != [] && !StartsEol(t[0])
  {
    assert PrintWord(verb, n, more)[0] == verb[0];
  }

  lemma ControlEndsPath(b: seq<byte>, k: nat, path: seq<byte>, c: byte, rest: seq<byte>)
    requires (forall x :: 0 <= x < |path| ==> IsPathOctet(path[x])) && !IsPathOctet(c) && c != SP
    requires Reads(b, k, path + ([c] + rest))
    ensures Token(b, k, EndsPath, SP).Bad?
  {
    FindReads(b, k, EndsPath, path, [c] + rest);
  }

  /** Refused field lines make a refused message behind any start line. */
  lemma RefusedBehindHead(b: seq<byte>, m: RequestForm, block: seq<byte>, max: nat)
    requires RequestHeadOk(m) && b == PrintRequestHead(m, block)
    requires |block| <= |b| && Headers(b, |b| - |block|, 0, max).Bad?
    ensures ParseRequest(b, max).Bad?
  {
    hide RequestHead, Headers, PrintRequestHead;
    RequestHeadReads(b, m, block);
  }

  lemma RefusedBehindStatusLine(b: seq<byte>, m: ResponseForm, block: seq<byte>, max: nat)
    requires StatusLineOk(m) && b == PrintStatusLine(m, block)
    requires |block| <= |b| && Headers(b, |b| - |block|, 0, max).Bad?
    ensures ParseResponse(b, max).Bad?
  {
    hide ParseStatusLine, Headers, PrintStatusLine;
    StatusLineReads(b, m, block);
  }
}
