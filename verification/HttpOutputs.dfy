/**
 What the out-parameters and the header table hold when a parser returns, also when the message
 is partial or refused: the pieces read so far. In a partial message they are the pieces
 that the complete one will have.
 */
module HttpOutputs {
  import opened Bytes
  import opened Wrappers
  import opened HttpSpec
  import opened HttpStability

  /** None where nothing has been stored: NULL and 0 for a span, -1 for the version. */
  datatype RequestOut = RequestOut(verb: Option<Span>, path: Option<Span>, minorVersion: Option<nat>)

  /** The status is 0 at first and gathers one digit after the other. */
  datatype ResponseOut = ResponseOut(minorVersion: Option<nat>, status: nat, reason: Option<Span>)

  /** The complete entries, and what has been stored as the name of the entry behind them, if anything. */
  datatype TableOut = TableOut(headers: seq<Header>, name: Option<Option<Span>>)

  const NO_REQUEST := RequestOut(None, None, None)
  const NO_RESPONSE := ResponseOut(None, 0, None)
  const NO_HEADERS := TableOut([], None)

  function Stored<T>(r: Parsed<T>): Option<T> {
    if r.Ok? then Some(r.value) else None
  }

  /** The parse proper is entered. */
  predicate Entered(b: seq<byte>, lastLen: nat)
    requires ScanStart(lastLen) <= |b|
  {
    lastLen == 0 || TwoEols(b, ScanStart(lastLen), 0).Ok?
  }

  // ---- the header table ----

  /** The name is stored before the value is looked for, also an empty one, and NULL on a continuation line. */
  function NameOut(b: seq<byte>, i: nat, continues: bool): Option<Option<Span>>
    requires i < |b|
  {
    if continues && IsBlank(b[i]) then Some(None)
    else if Token(b, i, EndsName, COLON).Ok? then Some(Some(Token(b, i, EndsName, COLON).value))
    else None
  }

  function HeadersOut(b: seq<byte>, i: nat, n: nat, max: nat): (out: TableOut)
    requires i <= |b| && n <= max
    ensures n + |out.headers| <= max && (out.name.Some? ==> n + |out.headers| < max)
    decreases |b| - i
  {
    if i == |b| || StartsEol(b[i]) || n == max then NO_HEADERS
    else
      var line := FieldLine(b, i, n != 0);
      if line.Ok? then
        var rest := HeadersOut(b, line.next, n + 1, max);
        TableOut([line.value] + rest.headers, rest.name)
      else TableOut([], NameOut(b, i, n != 0))
  }

  function WithName(h: Header, name: Option<Option<Span>>): Header {
    if name.Some? then h.(name := name.value) else h
  }

  /** The table after a call: the entries read, one perhaps with a new name only, the others as before. */
  ghost predicate Filled(before: seq<Header>, after: seq<Header>, out: TableOut) {
    var n := |out.headers|;
    && |after| == |before| && n <= |before| && (out.name.Some? ==> n < |before|)
    && after[..n] == out.headers
    && forall k :: n <= k < |before| ==> after[k] == if k == n then WithName(before[k], out.name) else before[k]
  }

  lemma {:induction false} HeadersOutAccepted(b: seq<byte>, i: nat, n: nat, max: nat)
    requires i <= |b| && n <= max && Headers(b, i, n, max).Ok?
    ensures HeadersOut(b, i, n, max) == TableOut(Headers(b, i, n, max).value, None)
    decreases |b| - i
  {
    if !StartsEol(b[i]) {
      HeadersOutAccepted(b, FieldLine(b, i, n != 0).next, n + 1, max);
    }
  }

  /** What is stored belongs to the headers: the complete entries are the first of them, and the
      name is that of the next. */
  ghost predicate Begins(out: TableOut, headers: seq<Header>) {
    && out.headers <= headers
    && (out.name.Some? ==> |out.headers| < |headers| && headers[|out.headers|].name == out.name.value)
  }

  lemma {:induction false} HeadersOutGrows(b: seq<byte>, e: seq<byte>, i: nat, n: nat, max: nat)
    requires i <= |b| && n <= max && Headers(b + e, i, n, max).Ok?
    ensures Begins(HeadersOut(b, i, n, max), Headers(b + e, i, n, max).value)
    decreases |b| - i
  {
    if i < |b| && n < max && !StartsEol(b[i]) {
      assert (b + e)[i] == b[i];
      FieldLineKept(b, e, i, n != 0);
      var line := FieldLine(b, i, n != 0);
      if line.Ok? {
        HeadersOutGrows(b, e, line.next, n + 1, max);
        BeginsCons(line.value, HeadersOut(b, line.next, n + 1, max), Headers(b + e, line.next, n + 1, max).value);
      } else {
        NameOutGrows(b, e, i, n != 0);
      }
    }
  }

  /** What a line that is not all there yet has stored is the name it will have. */
  lemma NameOutGrows(b: seq<byte>, e: seq<byte>, i: nat, continues: bool)
    requires i < |b| && FieldLine(b + e, i, continues).Ok?
    ensures var out := NameOut(b, i, continues);
            out.Some? ==> out.value == FieldLine(b + e, i, continues).value.name
  {
    assert (b + e)[i] == b[i];
    TokenKept(b, e, i, EndsName, COLON);
  }

  lemma BeginsCons(h: Header, out: TableOut, headers: seq<Header>)
    requires Begins(out, headers)
    ensures Begins(TableOut([h] + out.headers, out.name), [h] + headers)
  {
  }

  // ---- requests ----

  function TargetOut(b: seq<byte>, i: nat): (Option<Span>, Option<Span>)
    requires i <= |b|
  {
    var verb := Token(b, i, EndsVerb, SP);
    var gap := if verb.Ok? then Spaces(b, verb.next) else Partial;
    (Stored(verb), if gap.Ok? then Stored(Token(b, gap.next, EndsPath, SP)) else None)
  }

  function LineOut(b: seq<byte>, i: nat): RequestOut
    requires i <= |b|
  {
    var (verb, path) := TargetOut(b, i);
    var target := Target(b, i);
    RequestOut(verb, path, if target.Ok? then Stored(Version(b, target.next)) else None)
  }

  function HeadOut(b: seq<byte>): RequestOut {
    if LeadingEol(b).Ok? then LineOut(b, LeadingEol(b).next) else NO_REQUEST
  }

  function RequestTable(b: seq<byte>, max: nat): (out: TableOut)
    ensures |out.headers| <= max
  {
    if RequestHead(b).Ok? then HeadersOut(b, RequestHead(b).next, 0, max) else NO_HEADERS
  }

  lemma LineOutAccepted(b: seq<byte>, i: nat)
    requires i <= |b| && ParseLine(b, i).Ok?
    ensures var line := ParseLine(b, i).value;
            LineOut(b, i) == RequestOut(Some(line.verb), Some(line.path), Some(line.minorVersion))
  {
    assert Target(b, i).Ok? && Version(b, Target(b, i).next).Ok?;
  }

  /** On an accepted request everything is stored. */
  lemma RequestOutAccepted(b: seq<byte>, max: nat)
    requires ParseRequest(b, max).Ok?
    ensures var q := ParseRequest(b, max).value;
            && HeadOut(b) == RequestOut(Some(q.line.verb), Some(q.line.path), Some(q.line.minorVersion))
            && RequestTable(b, max) == TableOut(q.headers, None)
  {
    LineOutAccepted(b, LeadingEol(b).next);
    var head := RequestHead(b);
    assert head == ParseLine(b, LeadingEol(b).next);
    HeadersOutAccepted(b, head.next, 0, max);
  }

  ghost predicate IsOf<T>(stored: Option<T>, value: T) {
    stored.Some? ==> stored.value == value
  }

  lemma TargetOutGrows(b: seq<byte>, e: seq<byte>, i: nat)
    requires i <= |b| && Target(b + e, i).Ok?
    ensures var (verb, path) := TargetOut(b, i);
            IsOf(verb, Target(b + e, i).value.0) && IsOf(path, Target(b + e, i).value.1)
  {
    TokenKept(b, e, i, EndsVerb, SP);
    var verb := Token(b, i, EndsVerb, SP);
    if verb.Ok? {
      SpacesKept(b, e, verb.next);
      var gap := Spaces(b, verb.next);
      if gap.Ok? {
        TokenKept(b, e, gap.next, EndsPath, SP);
      }
    }
  }

  lemma LineOutGrows(b: seq<byte>, e: seq<byte>, i: nat)
    requires i <= |b| && ParseLine(b + e, i).Ok?
    ensures var line, out := ParseLine(b + e, i).value, LineOut(b, i);
            IsOf(out.verb, line.verb) && IsOf(out.path, line.path) && IsOf(out.minorVersion, line.minorVersion)
  {
    TargetOutGrows(b, e, i);
    TargetKept(b, e, i);
    if Target(b, i).Ok? {
      VersionKept(b, e, Target(b, i).next);
    }
  }

  /** Whatever a call has stored, on a partial message too, is what the complete message says. */
  lemma RequestOutGrows(b: seq<byte>, e: seq<byte>, max: nat)
    requires ParseRequest(b + e, max).Ok?
    ensures var q, out := ParseRequest(b + e, max).value, HeadOut(b);
            && IsOf(out.verb, q.line.verb) && IsOf(out.path, q.line.path) && IsOf(out.minorVersion, q.line.minorVersion)
            && Begins(RequestTable(b, max), q.headers)
  {
    LeadingEolKept(b, e);
    if LeadingEol(b).Ok? {
      LineOutGrows(b, e, LeadingEol(b).next);
      ParseLineKept(b, e, LeadingEol(b).next);
      if RequestHead(b).Ok? {
        HeadersOutGrows(b, e, RequestHead(b).next, 0, max);
      }
    }
  }

  lemma LeadingEolKept(b: seq<byte>, e: seq<byte>)
    ensures Kept(LeadingEol(b), LeadingEol(b + e))
  {
    if b != [] {
      assert (b + e)[0] == b[0];
    }
  }

  // ---- responses ----

  /** The digits read before one that is none. */
  function StatusOut(b: seq<byte>, i: nat): nat
    requires i <= |b|
  {
    if |b| - i < 4 || !IsDigit(b[i]) then 0
    else if !IsDigit(b[i + 1]) then 100 * Digit(b[i])
    else if !IsDigit(b[i + 2]) then 100 * Digit(b[i]) + 10 * Digit(b[i + 1])
    else 100 * Digit(b[i]) + 10 * Digit(b[i + 1]) + Digit(b[i + 2])
  }

  /** The rest of the line is stored before it is found not to begin with a space. */
  function ReasonOut(b: seq<byte>, i: nat): Option<Span>
    requires i <= |b|
  {
    if Reason(b, i).Ok? then Some(Reason(b, i).value) else Stored(ToEol(b, i))
  }

  function StatusLineOut(b: seq<byte>): ResponseOut {
    var minor := Version(b, 0);
    var gap := if minor.Ok? && b[minor.next] == SP then Spaces(b, minor.next) else Partial;
    if !gap.Ok? then ResponseOut(Stored(minor), 0, None)
    else
      var status := Status(b, gap.next);
      ResponseOut(Stored(minor), StatusOut(b, gap.next), if status.Ok? then ReasonOut(b, status.next) else None)
  }

  function ResponseTable(b: seq<byte>, max: nat): (out: TableOut)
    ensures |out.headers| <= max
  {
    if ParseStatusLine(b).Ok? then HeadersOut(b, ParseStatusLine(b).next, 0, max) else NO_HEADERS
  }

  lemma ResponseOutAccepted(b: seq<byte>, max: nat)
    requires ParseResponse(b, max).Ok?
    ensures var q := ParseResponse(b, max).value;
            && StatusLineOut(b) == ResponseOut(Some(q.line.minorVersion), q.line.status, Some(q.line.reason))
            && ResponseTable(b, max) == TableOut(q.headers, None)
  {
    HeadersOutAccepted(b, ParseStatusLine(b).next, 0, max);
  }

  lemma StatusLineOutGrows(b: seq<byte>, e: seq<byte>)
    requires ParseStatusLine(b + e).Ok?
    ensures var line, out := ParseStatusLine(b + e).value, StatusLineOut(b);
            && IsOf(out.minorVersion, line.minorVersion) && (out.status == 0 || out.status == line.status)
            && IsOf(out.reason, line.reason)
  {
    VersionKept(b, e, 0);
    var minor := Version(b, 0);
    if minor.Ok? && b[minor.next] == SP {
      SpacesKept(b, e, minor.next);
      var gap := Spaces(b, minor.next);
      if gap.Ok? && Status(b, gap.next).Ok? {
        assert Status(b + e, gap.next) == Status(b, gap.next);
        ReasonKept(b, e, gap.next + 3);
        ToEolKept(b, e, gap.next + 3);
      }
    }
  }

  lemma ResponseOutGrows(b: seq<byte>, e: seq<byte>, max: nat)
    requires ParseResponse(b + e, max).Ok?
    ensures var q, out := ParseResponse(b + e, max).value, StatusLineOut(b);
            && IsOf(out.minorVersion, q.line.minorVersion) && (out.status == 0 || out.status == q.line.status)
            && IsOf(out.reason, q.line.reason) && Begins(ResponseTable(b, max), q.headers)
  {
    StatusLineOutGrows(b, e);
    StatusLineKept(b, e);
    if ParseStatusLine(b).Ok? {
      HeadersOutGrows(b, e, ParseStatusLine(b).next, 0, max);
    }
  }
}
