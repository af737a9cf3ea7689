/**
 The parsers as loops over a cursor: out-parameters are returned, the header table is an array
 of the caller's, and each is proved to compute what HttpSpec.dfy says and to leave in its
 out-parameters what HttpOutputs.dfy says. The flag sse says which of the two builds of the
 scans is meant.
 */
module HttpParser {
  import opened Bytes
  import opened Wrappers
  import opened HttpSpec
  import opened HttpOutputs
  import opened HttpScans

  /** Whether two line ends in a row are found from three octets before the previous end on. */
  method IsComplete(b: seq<byte>, lastLen: nat) returns (r: Parsed<()>)
    requires ScanStart(lastLen) <= |b|
    ensures r == TwoEols(b, ScanStart(lastLen), 0)
  {
    var count := 0;
    var pos := if lastLen < 3 then 0 else lastLen - 3;
    while true
      invariant 0 <= count < 2 && 0 <= pos <= |b|
      invariant TwoEols(b, pos, count) == TwoEols(b, ScanStart(lastLen), 0)
      decreases |b| - pos
    {
      if pos == |b| {
        return Partial;
      }
      if b[pos] == CR {
        if pos + 1 == |b| {
          return Partial;
        }
        if b[pos + 1] != LF {
          return Bad;
        }
        if count == 1 {
          return Ok((), pos + 2);
        }
        pos, count := pos + 2, count + 1;
      } else if b[pos] == LF {
        if count == 1 {
          return Ok((), pos + 1);
        }
        pos, count := pos + 1, count + 1;
      } else {
        pos, count := pos + 1, 0;
      }
    }
  }

  /** Over the octet at start and the spaces behind it. */
  method SkipSpaces(b: seq<byte>, start: nat) returns (r: Parsed<()>)
    requires start < |b|
    ensures r == Spaces(b, start)
  {
    var pos := start + 1;
    while pos < |b| && b[pos] == SP
      invariant start < pos <= |b|
      invariant forall k :: start + 1 <= k < pos ==> !NotSpace(b[k])
    {
      pos := pos + 1;
    }
    if pos == |b| {
      return Partial;
    }
    FindIs(b, start + 1, NotSpace, pos);
    r := Ok((), pos);
  }

  method ParseHttpVersion(b: seq<byte>, start: nat) returns (r: Parsed<nat>)
    requires start <= |b|
    ensures r == Version(b, start)
  {
    if |b| - start < 9 {
      return Partial;
    }
    var k := 0;
    while k < 7
      invariant 0 <= k <= 7
      invariant forall i :: 0 <= i < k ==> b[start..start + 7][i] == HTTP1[i]
    {
      assert b[start..start + 7][k] == b[start + k];
      if b[start + k] != HTTP1[k] {
        return Bad;
      }
      k := k + 1;
    }
    if !IsDigit(b[start + 7]) {
      return Bad;
    }
    r := Ok(Digit(b[start + 7]), start + 8);
  }

  method TrimValue(b: seq<byte>, value: Span) returns (t: Span)
    requires value.start + value.len <= |b|
    ensures t == TrimEnd(b, value)
  {
    var len := value.len;
    while len != 0 && IsBlank(b[value.start + len - 1])
      invariant 0 <= len <= value.len
      invariant TrimEnd(b, Span(value.start, len)) == TrimEnd(b, value)
    {
      len := len - 1;
    }
    t := Span(value.start, len);
  }

  /** The name of a field line goes into the entry at once. */
  method ParseFieldName(b: seq<byte>, start: nat, headers: array<Header>, n: nat, sse: bool) returns (r: Parsed<()>)
    requires start < |b| && n < headers.Length
    modifies headers
    ensures FieldName(b, start, n != 0) ==
            if r.Ok? then Ok(headers[n].name, r.next) else r.PropagateFailure()
    ensures headers[..] == old(headers[..])[n := WithName(old(headers[n]), NameOut(b, start, n != 0))]
  {
    if n != 0 && IsBlank(b[start]) {
      headers[n] := headers[n].(name := None);
      return Ok((), start);
    }
    var token := ParseToken(b, start, COLON, sse);
    if !token.Ok? {
      return token.PropagateFailure();
    }
    headers[n] := headers[n].(name := Some(token.value));
    if token.value.len == 0 {
      return Bad;
    }
    var pos := token.next + 1;
    while pos < |b| && IsBlank(b[pos])
      invariant token.next < pos <= |b|
      invariant forall k :: token.next + 1 <= k < pos ==> !NotBlank(b[k])
    {
      pos := pos + 1;
    }
    if pos == |b| {
      return Partial;
    }
    FindIs(b, token.next + 1, NotBlank, pos);
    r := Ok((), pos);
  }

  /** One field line into entry n of the table; when it is not all there, its name perhaps. */
  method ParseFieldLine(b: seq<byte>, start: nat, headers: array<Header>, n: nat, sse: bool) returns (r: Parsed<()>)
    requires start < |b| && n < headers.Length
    modifies headers
    ensures var line := FieldLine(b, start, n != 0);
            && line == (if r.Ok? then Ok(headers[n], r.next) else r.PropagateFailure())
            && headers[..] == old(headers[..])[n := if line.Ok? then line.value
                                                    else WithName(old(headers[n]), NameOut(b, start, n != 0))]
  {
    var name := ParseFieldName(b, start, headers, n, sse);
    if !name.Ok? {
      return name;
    }
    var line := GetTokenToEol(b, name.next, sse);
    if !line.Ok? {
      return line.PropagateFailure();
    }
    var value := TrimValue(b, line.value);
    headers[n] := headers[n].(value := value);
    r := Ok((), line.next);
  }

  /** A line end at pos, or the refusal of anything else. */
  method ExpectEol(b: seq<byte>, pos: nat) returns (r: Parsed<()>)
    requires pos < |b|
    ensures r == Eol(b, pos)
  {
    if b[pos] == CR {
      if pos + 1 == |b| {
        return Partial;
      }
      return if b[pos + 1] == LF then Ok((), pos + 2) else Bad;
    }
    return if b[pos] == LF then Ok((), pos + 1) else Bad;
  }

  /** The result of a parse whose first headers have been read already. */
  function Behind(hs: seq<Header>, r: Parsed<seq<Header>>): Parsed<seq<Header>> {
    if r.Ok? then Ok(hs + r.value, r.next) else r
  }

  function TableBehind(hs: seq<Header>, out: TableOut): TableOut {
    TableOut(hs + out.headers, out.name)
  }

  /** Reading from pos with hs in front comes to what the whole parse comes to. */
  ghost predicate Rest(b: seq<byte>, start: nat, pos: nat, hs: seq<Header>, max: nat)
    requires start <= |b| && pos <= |b| && |hs| <= max
  {
    && Headers(b, start, 0, max) == Behind(hs, Headers(b, pos, |hs|, max))
    && HeadersOut(b, start, 0, max) == TableBehind(hs, HeadersOut(b, pos, |hs|, max))
  }

  lemma RestNone(b: seq<byte>, start: nat, max: nat)
    requires start <= |b|
    ensures Rest(b, start, start, [], max)
  {
    var r, out := Headers(b, start, 0, max), HeadersOut(b, start, 0, max);
    assert [] + out.headers == out.headers;
    if r.Ok? {
      assert [] + r.value == r.value;
    }
  }

  lemma LineInFront(b: seq<byte>, pos: nat, n: nat, max: nat)
    requires pos < |b| && n < max && !StartsEol(b[pos]) && FieldLine(b, pos, n != 0).Ok?
    ensures var line := FieldLine(b, pos, n != 0);
            && Headers(b, pos, n, max) == Behind([line.value], Headers(b, line.next, n + 1, max))
            && HeadersOut(b, pos, n, max) == TableBehind([line.value], HeadersOut(b, line.next, n + 1, max))
  {
  }

  lemma BehindTwice(hs: seq<Header>, h: Header, r: Parsed<seq<Header>>, out: TableOut)
    ensures Behind(hs, Behind([h], r)) == Behind(hs + [h], r)
    ensures TableBehind(hs, TableBehind([h], out)) == TableBehind(hs + [h], out)
  {
    assert hs + ([h] + out.headers) == hs + [h] + out.headers;
    if r.Ok? {
      assert hs + ([h] + r.value) == hs + [h] + r.value;
    }
  }

  /** One field line more in front of the rest. */
  lemma RestLine(b: seq<byte>, start: nat, pos: nat, hs: seq<Header>, max: nat)
    requires start <= |b| && pos < |b| && |hs| < max && Rest(b, start, pos, hs, max)
    requires !StartsEol(b[pos]) && FieldLine(b, pos, |hs| != 0).Ok?
    ensures var line := FieldLine(b, pos, |hs| != 0);
            Rest(b, start, line.next, hs + [line.value], max)
  {
    var line := FieldLine(b, pos, |hs| != 0);
    LineInFront(b, pos, |hs|, max);
    BehindTwice(hs, line.value, Headers(b, line.next, |hs| + 1, max), HeadersOut(b, line.next, |hs| + 1, max));
  }

  /** How far the table is filled, and that nothing else has been touched. */
  ghost predicate Holds(before: seq<Header>, after: seq<Header>, hs: seq<Header>) {
    && |after| == |before| && |hs| <= |before| && after[..|hs|] == hs
    && forall k :: |hs| <= k < |before| ==> after[k] == before[k]
  }

  lemma HoldsFills(before: seq<Header>, after: seq<Header>, hs: seq<Header>, out: TableOut)
    requires Holds(before, after, hs) && out == TableBehind(hs, NO_HEADERS)
    ensures Filled(before, after, out)
  {
    assert hs + [] == hs;
  }

  /** The table at the end, when the line behind hs was not all there. */
  lemma NameFills(before: seq<Header>, mid: seq<Header>, after: seq<Header>, hs: seq<Header>,
                  name: Option<Option<Span>>)
    requires Holds(before, mid, hs) && |hs| < |before| && after == mid[|hs| := WithName(mid[|hs|], name)]
    ensures Filled(before, after, TableBehind(hs, TableOut([], name)))
  {
    assert hs + [] == hs;
    assert after[..|hs|] == mid[..|hs|];
  }

  lemma HoldsLine(before: seq<Header>, mid: seq<Header>, after: seq<Header>, hs: seq<Header>, h: Header)
    requires Holds(before, mid, hs) && |hs| < |before| && after == mid[|hs| := h]
    ensures Holds(before, after, hs + [h])
  {
    assert after[..|hs| + 1] == mid[..|hs|] + [h];
  }

  method ParseHeaders(b: seq<byte>, start: nat, headers: array<Header>, maxHeaders: nat, sse: bool)
    returns (r: Parsed<()>, numHeaders: nat)
    requires start <= |b| && maxHeaders <= headers.Length
    modifies headers
    ensures numHeaders <= maxHeaders
    ensures Headers(b, start, 0, maxHeaders) ==
            if r.Ok? then Ok(headers[..numHeaders], r.next) else r.PropagateFailure()
    ensures var out := HeadersOut(b, start, 0, maxHeaders);
            numHeaders == |out.headers| && Filled(old(headers[..]), headers[..], out)
  {
    numHeaders := 0;
    var pos := start;
    ghost var before, hs: seq<Header> := headers[..], [];
    RestNone(b, start, maxHeaders);
    while true
      invariant start <= pos <= |b| && numHeaders == |hs| <= maxHeaders
      invariant Rest(b, start, pos, hs, maxHeaders) && Holds(before, headers[..], hs)
      decreases |b| - pos
    {
      ghost var mid := headers[..];
      if pos == |b| {
        HoldsFills(before, mid, hs, HeadersOut(b, start, 0, maxHeaders));
        return Partial, numHeaders;
      }
      if b[pos] == CR || b[pos] == LF {
        HoldsFills(before, mid, hs, HeadersOut(b, start, 0, maxHeaders));
        r := ExpectEol(b, pos);
        return;
      }
      if numHeaders == maxHeaders {
        HoldsFills(before, mid, hs, HeadersOut(b, start, 0, maxHeaders));
        return Bad, numHeaders;
      }
      var line := ParseFieldLine(b, pos, headers, numHeaders, sse);
      if !line.Ok? {
        NameFills(before, mid, headers[..], hs, NameOut(b, pos, numHeaders != 0));
        return line, numHeaders;
      }
      RestLine(b, start, pos, hs, maxHeaders);
      HoldsLine(before, mid, headers[..], hs, headers[numHeaders]);
      hs := hs + [headers[numHeaders]];
      numHeaders, pos := numHeaders + 1, line.next;
    }
  }

  method ParseTarget(b: seq<byte>, start: nat, sse: bool)
    returns (r: Parsed<(Span, Span)>, verb: Option<Span>, path: Option<Span>)
    requires start <= |b|
    ensures r == Target(b, start) && (verb, path) == TargetOut(b, start)
  {
    verb, path := None, None;
    var token := ParseToken(b, start, SP, sse);
    if !token.Ok? {
      return token.PropagateFailure(), verb, path;
    }
    verb := Some(token.value);
    var gap := SkipSpaces(b, token.next);
    if !gap.Ok? {
      return gap.PropagateFailure(), verb, path;
    }
    token := AdvanceToken(b, gap.next, sse);
    if !token.Ok? {
      return token.PropagateFailure(), verb, path;
    }
    path := Some(token.value);
    gap := SkipSpaces(b, token.next);
    if !gap.Ok? {
      return gap.PropagateFailure(), verb, path;
    }
    if verb.value.len == 0 || path.value.len == 0 {
      return Bad, verb, path;
    }
    r := Ok((verb.value, path.value), gap.next);
  }

  method ParseRequestLine(b: seq<byte>, start: nat, sse: bool) returns (r: Parsed<RequestLine>, out: RequestOut)
    requires start <= |b|
    ensures r == ParseLine(b, start) && out == LineOut(b, start)
  {
    var target, verb, path := ParseTarget(b, start, sse);
    out := RequestOut(verb, path, None);
    if !target.Ok? {
      return target.PropagateFailure(), out;
    }
    var minor := ParseHttpVersion(b, target.next);
    if !minor.Ok? {
      return minor.PropagateFailure(), out;
    }
    out := out.(minorVersion := Some(minor.value));
    var end := ExpectEol(b, minor.next);
    if !end.Ok? {
      return end.PropagateFailure(), out;
    }
    r := Ok(RequestLine(target.value.0, target.value.1, minor.value), end.next);
  }

  /** The leading empty line and the request line. */
  method ParseRequestHead(b: seq<byte>, sse: bool) returns (r: Parsed<RequestLine>, out: RequestOut)
    ensures r == RequestHead(b) && out == HeadOut(b)
  {
    if b == [] {
      return Partial, NO_REQUEST;
    }
    var pos := 0;
    if b[0] == CR || b[0] == LF {
      var first := ExpectEol(b, 0);
      if !first.Ok? {
        return first.PropagateFailure(), NO_REQUEST;
      }
      pos := first.next;
    }
    r, out := ParseRequestLine(b, pos, sse);
  }

  method ParseReason(b: seq<byte>, start: nat, sse: bool) returns (r: Parsed<Span>, stored: Option<Span>)
    requires start <= |b|
    ensures r == Reason(b, start) && stored == ReasonOut(b, start)
  {
    var line := GetTokenToEol(b, start, sse);
    stored := None;
    if !line.Ok? {
      return line, stored;
    }
    stored := Some(line.value);
    if line.value.len == 0 {
      return line, stored;
    }
    if b[start] != SP {
      return Bad, stored;
    }
    var msg, len := start, line.value.len;
    var end := start + len;
    ghost var text := b[..end];
    // not bounded by len: the octet that ends the line is no space
    assert EndsLine(b[end]);
    msg, len := msg + 1, len - 1;
    while b[msg] == SP
      invariant start < msg <= end && len == end - msg
      invariant b[end] != SP
      invariant forall k :: start <= k < msg ==> !NotSpace(b[k])
      decreases end - msg
    {
      msg, len := msg + 1, len - 1;
    }
    if msg < end {
      FindIs(text, start, NotSpace, msg);
    } else {
      assert Find(text, start, NotSpace) == end;
    }
    r, stored := Ok(Span(msg, len), line.next), Some(Span(msg, len));
  }

  method ParseStatus(b: seq<byte>, start: nat) returns (r: Parsed<nat>, status: nat)
    requires start <= |b|
    ensures r == Status(b, start) && status == StatusOut(b, start)
  {
    status := 0;
    if |b| - start < 4 {
      return Partial, status;
    }
    if !IsDigit(b[start]) {
      return Bad, status;
    }
    status := 100 * Digit(b[start]);
    if !IsDigit(b[start + 1]) {
      return Bad, status;
    }
    status := status + 10 * Digit(b[start + 1]);
    if !IsDigit(b[start + 2]) {
      return Bad, status;
    }
    status := status + Digit(b[start + 2]);
    r := Ok(status, start + 3);
  }

  method ParseResponseHead(b: seq<byte>, sse: bool) returns (r: Parsed<StatusLine>, out: ResponseOut)
    ensures r == ParseStatusLine(b) && out == StatusLineOut(b)
  {
    out := NO_RESPONSE;
    var minor := ParseHttpVersion(b, 0);
    if !minor.Ok? {
      return minor.PropagateFailure(), out;
    }
    out := out.(minorVersion := Some(minor.value));
    if b[minor.next] != SP {
      return Bad, out;
    }
    var gap := SkipSpaces(b, minor.next);
    if !gap.Ok? {
      return gap.PropagateFailure(), out;
    }
    var status, digits := ParseStatus(b, gap.next);
    out := out.(status := digits);
    if !status.Ok? {
      return status.PropagateFailure(), out;
    }
    var reason, stored := ParseReason(b, status.next, sse);
    out := out.(reason := stored);
    if !reason.Ok? {
      return reason.PropagateFailure(), out;
    }
    r := Ok(StatusLine(minor.value, status.value, reason.value), reason.next);
  }

  /** The shortcut of the three entry points: Ok when the parse proper is to be entered. */
  method Enter(b: seq<byte>, lastLen: nat) returns (r: Parsed<()>)
    requires ScanStart(lastLen) <= |b|
    ensures r == if lastLen == 0 then Ok((), 0) else TwoEols(b, ScanStart(lastLen), 0)
  {
    r := Ok((), 0);
    if lastLen != 0 {
      r := IsComplete(b, lastLen);
    }
  }

  method ParseRequestMessage(b: seq<byte>, headers: array<Header>, maxHeaders: nat, lastLen: nat, sse: bool)
    returns (ret: int, out: RequestOut, numHeaders: nat)
    requires ScanStart(lastLen) <= |b| && maxHeaders <= headers.Length
    modifies headers
    ensures var r := PhrParseRequest(b, maxHeaders, lastLen);
            (r.Ok? ==> ret == r.next) && (r.Partial? <==> ret == -2) && (r.Bad? <==> ret == -1)
    ensures out == if Entered(b, lastLen) then HeadOut(b) else NO_REQUEST
    ensures var table := if Entered(b, lastLen) then RequestTable(b, maxHeaders) else NO_HEADERS;
            numHeaders == |table.headers| && Filled(old(headers[..]), headers[..], table)
    ensures var r := PhrParseRequest(b, maxHeaders, lastLen);
            r.Ok? ==> var line := r.value.line;
                      && out == RequestOut(Some(line.verb), Some(line.path), Some(line.minorVersion))
                      && numHeaders == |r.value.headers| <= headers.Length && headers[..numHeaders] == r.value.headers
  {
    out, numHeaders := NO_REQUEST, 0;
    var entry := Enter(b, lastLen);
    if !entry.Ok? {
      return Code(entry), out, numHeaders;
    }
    var head;
    head, out := ParseRequestHead(b, sse);
    if !head.Ok? {
      return Code(head), out, numHeaders;
    }
    var rest;
    rest, numHeaders := ParseHeaders(b, head.next, headers, maxHeaders, sse);
    ret := Code(rest);
    if rest.Ok? {
      RequestOutAccepted(b, maxHeaders);
    }
  }

  method ParseResponseMessage(b: seq<byte>, headers: array<Header>, maxHeaders: nat, lastLen: nat, sse: bool)
    returns (ret: int, out: ResponseOut, numHeaders: nat)
    requires ScanStart(lastLen) <= |b| && maxHeaders <= headers.Length
    modifies headers
    ensures var r := PhrParseResponse(b, maxHeaders, lastLen);
            (r.Ok? ==> ret == r.next) && (r.Partial? <==> ret == -2) && (r.Bad? <==> ret == -1)
    ensures out == if Entered(b, lastLen) then StatusLineOut(b) else NO_RESPONSE
    ensures var table := if Entered(b, lastLen) then ResponseTable(b, maxHeaders) else NO_HEADERS;
            numHeaders == |table.headers| && Filled(old(headers[..]), headers[..], table)
    ensures var r := PhrParseResponse(b, maxHeaders, lastLen);
            r.Ok? ==> var line := r.value.line;
                      && out == ResponseOut(Some(line.minorVersion), line.status, Some(line.reason))
                      && numHeaders == |r.value.headers| <= headers.Length && headers[..numHeaders] == r.value.headers
  {
    out, numHeaders := NO_RESPONSE, 0;
    var entry := Enter(b, lastLen);
    if !entry.Ok? {
      return Code(entry), out, numHeaders;
    }
    var head;
    head, out := ParseResponseHead(b, sse);
    if !head.Ok? {
      return Code(head), out, numHeaders;
    }
    var rest;
    rest, numHeaders := ParseHeaders(b, head.next, headers, maxHeaders, sse);
    ret := Code(rest);
    if rest.Ok? {
      ResponseOutAccepted(b, maxHeaders);
    }
  }

  method ParseHeaderBlock(b: seq<byte>, headers: array<Header>, maxHeaders: nat, lastLen: nat, sse: bool)
    returns (ret: int, numHeaders: nat)
    requires ScanStart(lastLen) <= |b| && maxHeaders <= headers.Length
    modifies headers
    ensures var r := PhrParseHeaders(b, maxHeaders, lastLen);
            (r.Ok? ==> ret == r.next) && (r.Partial? <==> ret == -2) && (r.Bad? <==> ret == -1)
    ensures var table := if Entered(b, lastLen) then HeadersOut(b, 0, 0, maxHeaders) else NO_HEADERS;
            numHeaders == |table.headers| && Filled(old(headers[..]), headers[..], table)
    ensures var r := PhrParseHeaders(b, maxHeaders, lastLen);
            r.Ok? ==> numHeaders == |r.value| <= headers.Length && headers[..numHeaders] == r.value
  {
    numHeaders := 0;
    var entry := Enter(b, lastLen);
    if !entry.Ok? {
      return Code(entry), numHeaders;
    }
    var rest;
    rest, numHeaders := ParseHeaders(b, 0, headers, maxHeaders, sse);
    ret := Code(rest);
  }
}
