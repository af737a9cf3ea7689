/**
 What the request, response and header parsers compute, one octet at a time. Positions are
 indices into the buffer received so far. A parser says Ok with a value and the position after
 it, Partial when it ran out of buffer, or Bad.
 */
module HttpSpec {
  import opened Bytes
  import opened Wrappers

  datatype Parsed<+T> = Ok(value: T, next: nat) | Partial | Bad {
    predicate IsFailure() {
      !Ok?
    }

    function PropagateFailure<U>(): (r: Parsed<U>)
      requires !Ok?
    {
      if Partial? then Partial else Bad
    }

    function Extract(): (T, nat)
      requires Ok?
    {
      (value, next)
    }
  }

  /** The int that the C function returns. */
  function Code<T>(r: Parsed<T>): (c: int) {
    match r
    case Ok(_, n) => n
    case Partial => -2
    case Bad => -1
  }

  /** A field line; no name on a continuation line. */
  datatype Header = Header(name: Option<Span>, value: Span)

  datatype RequestLine = RequestLine(verb: Span, path: Span, minorVersion: nat)

  datatype Request = Request(line: RequestLine, headers: seq<Header>)

  datatype StatusLine = StatusLine(minorVersion: nat, status: nat, reason: Span)

  datatype Response = Response(line: StatusLine, headers: seq<Header>)

  // ---- classes of octets ----

  predicate IsCtl(c: byte) { c < 32 || c == DEL }

  /** Ends a field value, a reason phrase: a control octet other than HT. */
  predicate EndsLine(c: byte) { IsCtl(c) && c != HT }

  predicate EndsPath(c: byte) { IsCtl(c) || c == SP }

  predicate NotSpace(c: byte) { c != SP }

  predicate IsBlank(c: byte) { c == SP || c == HT }

  predicate NotBlank(c: byte) { !IsBlank(c) }

  predicate IsDigit(c: byte) { 48 <= c <= 57 }

  function Digit(c: byte): (d: nat)
    requires IsDigit(c)
    ensures d < 10
  {
    c - 48
  }

  /** token_char_map: the tchar of section 3.2.6 of RFC 7230. */
  predicate IsTokenChar(c: byte) {
    || 48 <= c <= 57 || 65 <= c <= 90 || 97 <= c <= 122
    || c == 33 || 35 <= c <= 39 || c == 42 || c == 43 || c == 45 || c == 46
    || 94 <= c <= 96 || c == 124 || c == 126
  }

  predicate EndsVerb(c: byte) { c == SP || !IsTokenChar(c) }

  predicate EndsName(c: byte) { c == COLON || !IsTokenChar(c) }

  /** The first position from i on whose octet satisfies stop, or the end of the buffer. */
  function Find(b: seq<byte>, i: nat, stop: byte -> bool): (j: nat)
    requires i <= |b|
    ensures i <= j <= |b|
    ensures forall k :: i <= k < j ==> !stop(b[k])
    ensures j < |b| ==> stop(b[j])
    decreases |b| - i
  {
    if i == |b| || stop(b[i]) then i else Find(b, i + 1, stop)
  }

  lemma FindIs(b: seq<byte>, i: nat, stop: byte -> bool, j: nat)
    requires i <= j < |b| && stop(b[j]) && forall k :: i <= k < j ==> !stop(b[k])
    ensures Find(b, i, stop) == j
  {
  }

  // ---- pieces of a line ----

  /** A token up to next, which ends it and is not consumed. */
  function Token(b: seq<byte>, i: nat, stop: byte -> bool, next: byte): (r: Parsed<Span>)
    requires i <= |b|
    ensures r.Ok? ==> i <= r.next < |b|
  {
    var j := Find(b, i, stop);
    if j == |b| then Partial else if b[j] == next then Ok(Span(i, j - i), j) else Bad
  }

  /** Steps over the octet at i and over spaces; there has to be something behind them. */
  function Spaces(b: seq<byte>, i: nat): (r: Parsed<()>)
    requires i < |b|
    ensures r.Ok? ==> i < r.next < |b|
  {
    var j := Find(b, i + 1, NotSpace);
    if j == |b| then Partial else Ok((), j)
  }

  /** CRLF or LF at i. */
  function Eol(b: seq<byte>, i: nat): (r: Parsed<()>)
    requires i < |b|
    ensures r.Ok? ==> i < r.next <= |b|
  {
    if b[i] == CR then
      if i + 1 == |b| then Partial else if b[i + 1] == LF then Ok((), i + 2) else Bad
    else if b[i] == LF then Ok((), i + 1)
    else Bad
  }

  predicate StartsEol(c: byte) { c == CR || c == LF }

  /** The rest of the line, without the line end that is consumed too. */
  function ToEol(b: seq<byte>, i: nat): (r: Parsed<Span>)
    requires i <= |b|
    ensures r.Ok? ==> i < r.next <= |b| && SpanIn(r.value, i, r.next)
  {
    var j := Find(b, i, EndsLine);
    if j == |b| then Partial
    else
      var (_, n) :- Eol(b, j);
      Ok(Span(i, j - i), n)
  }

  /** "HTTP/1." and a digit; not looked at before there are nine octets. */
  function Version(b: seq<byte>, i: nat): (r: Parsed<nat>)
    requires i <= |b|
    ensures r.Ok? ==> r.next == i + 8 < |b| && r.value < 10
  {
    if |b| - i < 9 then Partial
    else if b[i..i + 7] == HTTP1 && IsDigit(b[i + 7]) then Ok(Digit(b[i + 7]), i + 8)
    else Bad
  }

  const HTTP1: seq<byte> := [72, 84, 84, 80, 47, 49, 46]

  /** Drops SP and HT from the end. */
  function TrimEnd(b: seq<byte>, s: Span): (t: Span)
    requires s.start + s.len <= |b|
    ensures t.start == s.start && t.len <= s.len
    ensures t.len > 0 ==> !IsBlank(b[t.start + t.len - 1])
    ensures forall k :: t.start + t.len <= k < s.start + s.len ==> IsBlank(b[k])
    decreases s.len
  {
    if s.len == 0 || !IsBlank(b[s.start + s.len - 1]) then s else TrimEnd(b, Span(s.start, s.len - 1))
  }

  // ---- headers ----

  /** The field name up to the colon and the blanks behind it, or nothing on a continuation line. */
  function FieldName(b: seq<byte>, i: nat, continues: bool): (r: Parsed<Option<Span>>)
    requires i < |b|
    ensures r.Ok? ==> i <= r.next < |b| && (r.value.Some? ==> SpanIn(r.value.value, i, r.next))
  {
    if continues && IsBlank(b[i]) then Ok(None, i)
    else
      var (name, j) :- Token(b, i, EndsName, COLON);
      if name.len == 0 then Bad
      else
        var k := Find(b, j + 1, NotBlank);
        if k == |b| then Partial else Ok(Some(name), k)
  }

  function FieldLine(b: seq<byte>, i: nat, continues: bool): (r: Parsed<Header>)
    requires i < |b|
    ensures r.Ok? ==> i < r.next <= |b|
  {
    var (name, j) :- FieldName(b, i, continues);
    var (value, n) :- ToEol(b, j);
    Ok(Header(name, TrimEnd(b, value)), n)
  }

  /** Field lines up to the blank line, when n have been read of at most max. */
  function Headers(b: seq<byte>, i: nat, n: nat, max: nat): (r: Parsed<seq<Header>>)
    requires i <= |b| && n <= max
    ensures r.Ok? ==> i < r.next <= |b| && n + |r.value| <= max
    decreases |b| - i
  {
    if i == |b| then Partial
    else if StartsEol(b[i]) then
      var (_, j) :- Eol(b, i);
      Ok([], j)
    else if n == max then Bad
    else
      var (h, j) :- FieldLine(b, i, n != 0);
      var (hs, k) :- Headers(b, j, n + 1, max);
      Ok([h] + hs, k)
  }

  // ---- requests ----

  /** The empty line some clients send first. */
  function LeadingEol(b: seq<byte>): (r: Parsed<()>)
    ensures r.Ok? ==> r.next <= |b|
  {
    if b == [] then Partial else if StartsEol(b[0]) then Eol(b, 0) else Ok((), 0)
  }

  /** Method and path, and the spaces behind each. */
  function Target(b: seq<byte>, i: nat): (r: Parsed<(Span, Span)>)
    requires i <= |b|
    ensures r.Ok? ==>
              && i < r.next < |b| && SpanIn(r.value.0, i, r.value.1.start)
              && r.value.1.start + r.value.1.len < r.next
  {
    var (verb, j) :- Token(b, i, EndsVerb, SP);
    var (_, k) :- Spaces(b, j);
    var (path, l) :- Token(b, k, EndsPath, SP);
    var (_, n) :- Spaces(b, l);
    if verb.len == 0 || path.len == 0 then Bad else Ok((verb, path), n)
  }

  function VersionLine(b: seq<byte>, i: nat): (r: Parsed<nat>)
    requires i <= |b|
    ensures r.Ok? ==> i + 8 < r.next <= |b| && r.value < 10
  {
    var (minor, k) :- Version(b, i);
    var (_, n) :- Eol(b, k);
    Ok(minor, n)
  }

  function ParseLine(b: seq<byte>, i: nat): (r: Parsed<RequestLine>)
    requires i <= |b|
    ensures r.Ok? ==>
              && i < r.next <= |b| && SpanIn(r.value.verb, i, r.value.path.start)
              && r.value.path.start + r.value.path.len < r.next
  {
    var (t, j) :- Target(b, i);
    var (minor, n) :- VersionLine(b, j);
    Ok(RequestLine(t.0, t.1, minor), n)
  }

  function RequestHead(b: seq<byte>): (r: Parsed<RequestLine>)
    ensures r.Ok? ==>
              && 0 < r.next <= |b| && SpanIn(r.value.verb, 0, r.value.path.start)
              && r.value.path.start + r.value.path.len < r.next
  {
    var (_, i) :- LeadingEol(b);
    ParseLine(b, i)
  }

  function ParseRequest(b: seq<byte>, max: nat): (r: Parsed<Request>)
    ensures r.Ok? ==> 0 < r.next <= |b|
  {
    var (line, j) :- RequestHead(b);
    var (hs, n) :- Headers(b, j, 0, max);
    Ok(Request(line, hs), n)
  }

  // ---- responses ----

  /** Three digits; not looked at before there is a fourth octet. */
  function Status(b: seq<byte>, i: nat): (r: Parsed<nat>)
    requires i <= |b|
    ensures r.Ok? ==> r.next == i + 3 < |b| && r.value < 1000
  {
    if |b| - i < 4 then Partial
    else if IsDigit(b[i]) && IsDigit(b[i + 1]) && IsDigit(b[i + 2]) then
      Ok(100 * Digit(b[i]) + 10 * Digit(b[i + 1]) + Digit(b[i + 2]), i + 3)
    else Bad
  }

  /** Nothing, or a space and the phrase without the spaces before it. */
  function Reason(b: seq<byte>, i: nat): (r: Parsed<Span>)
    requires i <= |b|
    ensures r.Ok? ==> i < r.next <= |b| && SpanIn(r.value, i, r.next)
  {
    var (s, n) :- ToEol(b, i);
    if s.len == 0 then Ok(s, n)
    else if b[i] == SP then
      var k := Find(b[..i + s.len], i, NotSpace);
      Ok(Span(k, i + s.len - k), n)
    else Bad
  }

  function ParseStatusLine(b: seq<byte>): (r: Parsed<StatusLine>)
    ensures r.Ok? ==> 0 < r.next <= |b|
  {
    var (minor, i) :- Version(b, 0);
    if b[i] != SP then Bad
    else
      var (_, j) :- Spaces(b, i);
      var (status, k) :- Status(b, j);
      var (reason, n) :- Reason(b, k);
      Ok(StatusLine(minor, status, reason), n)
  }

  function ParseResponse(b: seq<byte>, max: nat): (r: Parsed<Response>)
    ensures r.Ok? ==> 0 < r.next <= |b|
  {
    var (line, j) :- ParseStatusLine(b);
    var (hs, n) :- Headers(b, j, 0, max);
    Ok(Response(line, hs), n)
  }

  // ---- the shortcut for a caller that comes back with a longer buffer ----

  /** Two line ends in a row, when count of them have just been seen. */
  function TwoEols(b: seq<byte>, i: nat, count: nat): (r: Parsed<()>)
    requires i <= |b| && count < 2
    decreases |b| - i
  {
    if i == |b| then Partial
    else if StartsEol(b[i]) then
      var (_, n) :- Eol(b, i);
      if count == 1 then Ok((), n) else TwoEols(b, n, 1)
    else TwoEols(b, i + 1, 0)
  }

  /** Where the search starts: three octets before the previous end of the buffer. */
  function ScanStart(lastLen: nat): nat {
    if lastLen < 3 then 0 else lastLen - 3
  }

  /** The full parse, entered only if the shortcut (used when lastLen is not 0) finds the end. */
  function Guarded<T>(b: seq<byte>, lastLen: nat, full: Parsed<T>): Parsed<T>
    requires ScanStart(lastLen) <= |b|
  {
    if lastLen == 0 then full
    else
      var (_, _) :- TwoEols(b, ScanStart(lastLen), 0);
      full
  }

  function PhrParseRequest(b: seq<byte>, max: nat, lastLen: nat): Parsed<Request>
    requires ScanStart(lastLen) <= |b|
  {
    Guarded(b, lastLen, ParseRequest(b, max))
  }

  function PhrParseResponse(b: seq<byte>, max: nat, lastLen: nat): Parsed<Response>
    requires ScanStart(lastLen) <= |b|
  {
    Guarded(b, lastLen, ParseResponse(b, max))
  }

  function PhrParseHeaders(b: seq<byte>, max: nat, lastLen: nat): Parsed<seq<Header>>
    requires ScanStart(lastLen) <= |b|
  {
    Guarded(b, lastLen, Headers(b, 0, 0, max))
  }
}
