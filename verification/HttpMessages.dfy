/**
 What a well-formed message is made of (sections 3.1, 3.2 and 3.2.6 of RFC 7230), with its own
 classes of octets; and that the spans of every accepted message spell one.
 */
module HttpMessages {
  import opened Bytes
  import opened Wrappers
  import opened HttpSpec

  /** What a header's spans spell; no name on a continuation line. */
  datatype Field = Field(name: Option<seq<byte>>, value: seq<byte>)

  datatype RequestText = RequestText(verb: seq<byte>, path: seq<byte>, minorVersion: nat, fields: seq<Field>)

  datatype ResponseText = ResponseText(minorVersion: nat, status: nat, reason: seq<byte>, fields: seq<Field>)

  // ---- classes of octets ----

  /** tchar: a letter, a digit or one of !#$%&'*+-.^_`|~ */
  predicate IsTchar(c: byte) {
    || 48 <= c <= 57 || 65 <= c <= 90 || 97 <= c <= 122
    || c in {33, 35, 36, 37, 38, 39, 42, 43, 45, 46, 94, 95, 96, 124, 126}
  }

  /** What a field value or a reason phrase is made of: VCHAR, obs-text, SP and HT. */
  predicate IsFieldOctet(c: byte) { c == 9 || 32 <= c <= 126 || 128 <= c }

  predicate IsPathOctet(c: byte) { 33 <= c <= 126 || 128 <= c }

  predicate IsSpaceOrTab(c: byte) { c == 32 || c == 9 }

  // ---- well-formed parts ----

  ghost predicate IsToken(t: seq<byte>) {
    t != [] && forall k :: 0 <= k < |t| ==> IsTchar(t[k])
  }

  /** No control octet except HT, and neither SP nor HT at the end. */
  ghost predicate IsValue(v: seq<byte>) {
    && (forall k :: 0 <= k < |v| ==> IsFieldOctet(v[k]))
    && (v != [] ==> !IsSpaceOrTab(v[|v| - 1]))
  }

  /** A value behind a name does not start with a blank, one on a continuation line does. */
  ghost predicate FieldOk(f: Field, continues: bool) {
    && IsValue(f.value)
    && match f.name
       case Some(name) => IsToken(name) && (f.value != [] ==> !IsSpaceOrTab(f.value[0]))
       case None => continues && (f.value != [] ==> IsSpaceOrTab(f.value[0]))
  }

  ghost predicate FieldsOk(fs: seq<Field>, continues: bool) {
    forall k :: 0 <= k < |fs| ==> FieldOk(fs[k], continues || k > 0)
  }

  ghost predicate PathOk(p: seq<byte>) {
    p != [] && forall k :: 0 <= k < |p| ==> IsPathOctet(p[k])
  }

  ghost predicate RequestOk(m: RequestText) {
    IsToken(m.verb) && PathOk(m.path) && m.minorVersion < 10 && FieldsOk(m.fields, false)
  }

  ghost predicate ReasonOk(t: seq<byte>) {
    (forall k :: 0 <= k < |t| ==> IsFieldOctet(t[k])) && (t != [] ==> t[0] != SP)
  }

  ghost predicate ResponseOk(m: ResponseText) {
    m.minorVersion < 10 && m.status < 1000 && ReasonOk(m.reason) && FieldsOk(m.fields, false)
  }

  // ---- what the spans of a parse spell ----

  ghost predicate HeaderIn(b: seq<byte>, h: Header) {
    && (h.name.Some? ==> SpanIn(h.name.value, 0, |b|))
    && SpanIn(h.value, 0, |b|)
  }

  ghost function FieldOf(b: seq<byte>, h: Header): Field
    requires HeaderIn(b, h)
  {
    Field(if h.name.Some? then Some(Text(b, h.name.value)) else None, Text(b, h.value))
  }

  ghost function FieldsOf(b: seq<byte>, hs: seq<Header>): (fs: seq<Field>)
    requires forall h <- hs :: HeaderIn(b, h)
    ensures |fs| == |hs| && forall k :: 0 <= k < |hs| ==> fs[k] == FieldOf(b, hs[k])
  {
    seq(|hs|, k requires 0 <= k < |hs| => FieldOf(b, hs[k]))
  }

  /** Field lines follow one another inside [lo, hi), each name in front of its value. */
  ghost predicate HeadersIn(b: seq<byte>, hs: seq<Header>, lo: nat, hi: nat) {
    if hs == [] then lo <= hi <= |b|
    else
      var h := hs[0];
      && SpanIn(h.value, lo, hi) && hi <= |b|
      && (h.name.Some? ==> SpanIn(h.name.value, lo, h.value.start))
      && HeadersIn(b, hs[1..], h.value.start + h.value.len, hi)
  }

  lemma {:induction false} HeadersInside(b: seq<byte>, hs: seq<Header>, lo: nat, hi: nat)
    requires HeadersIn(b, hs, lo, hi)
    ensures forall h <- hs :: HeaderIn(b, h)
    ensures hi <= |b|
    decreases |hs|
  {
    if hs != [] {
      HeadersInside(b, hs[1..], hs[0].value.start + hs[0].value.len, hi);
      assert forall h <- hs :: h == hs[0] || h in hs[1..];
    }
  }

  ghost predicate RequestIn(b: seq<byte>, q: Request, n: nat) {
    && q.line.verb.start + q.line.verb.len < q.line.path.start
    && q.line.path.start + q.line.path.len < n <= |b|
    && HeadersIn(b, q.headers, q.line.path.start + q.line.path.len, n)
  }

  ghost function RequestOf(b: seq<byte>, q: Request, n: nat): RequestText
    requires RequestIn(b, q, n)
  {
    HeadersInside(b, q.headers, q.line.path.start + q.line.path.len, n);
    RequestText(Text(b, q.line.verb), Text(b, q.line.path), q.line.minorVersion, FieldsOf(b, q.headers))
  }

  ghost predicate ResponseIn(b: seq<byte>, q: Response, n: nat) {
    && SpanIn(q.line.reason, 0, n) && n <= |b|
    && HeadersIn(b, q.headers, q.line.reason.start + q.line.reason.len, n)
  }

  ghost function ResponseOf(b: seq<byte>, q: Response, n: nat): ResponseText
    requires ResponseIn(b, q, n)
  {
    HeadersInside(b, q.headers, q.line.reason.start + q.line.reason.len, n);
    ResponseText(q.line.minorVersion, q.line.status, Text(b, q.line.reason), FieldsOf(b, q.headers))
  }

  // ---- accepted messages are well-formed ----

  lemma FieldNameSound(b: seq<byte>, i: nat, continues: bool)
    requires i < |b| && FieldName(b, i, continues).Ok?
    ensures var r := FieldName(b, i, continues);
            match r.value
            case Some(name) => name.start + name.len <= |b| && IsToken(Text(b, name)) && !IsBlank(b[r.next])
            case None => continues && IsBlank(b[r.next])
  {
    if !continues || !IsBlank(b[i]) {
      var j := Token(b, i, EndsName, COLON).next;
      assert forall k :: i <= k < j ==> !EndsName(b[k]);
    }
  }

  lemma TextIsValue(b: seq<byte>, v: Span)
    requires v.start + v.len <= |b| && forall k :: v.start <= k < v.start + v.len ==> !EndsLine(b[k])
    requires v.len > 0 ==> !IsBlank(b[v.start + v.len - 1])
    ensures IsValue(Text(b, v))
  {
    assert forall k :: 0 <= k < v.len ==> Text(b, v)[k] == b[v.start + k];
  }

  lemma ValueSound(b: seq<byte>, i: nat)
    requires i <= |b| && ToEol(b, i).Ok?
    ensures var v := TrimEnd(b, ToEol(b, i).value);
            v.start == i && i + v.len <= |b| && IsValue(Text(b, v))
  {
    var v := ToEol(b, i).value;
    assert forall k :: i <= k < Find(b, i, EndsLine) ==> !EndsLine(b[k]);
    TextIsValue(b, TrimEnd(b, v));
  }

  lemma FieldLineSound(b: seq<byte>, i: nat, continues: bool)
    requires i < |b| && FieldLine(b, i, continues).Ok?
    ensures var r := FieldLine(b, i, continues);
            && HeadersIn(b, [r.value], i, r.next)
            && HeaderIn(b, r.value) && FieldOk(FieldOf(b, r.value), continues)
  {
    var r := FieldLine(b, i, continues);
    assert SpanIn(r.value.value, FieldName(b, i, continues).next, r.next);
    FieldNameSound(b, i, continues);
    ValueSound(b, FieldName(b, i, continues).next);
  }

  lemma HeadersInCons(b: seq<byte>, h: Header, hs: seq<Header>, lo: nat, mid: nat, hi: nat)
    requires HeadersIn(b, [h], lo, mid) && HeadersIn(b, hs, mid, hi)
    ensures HeadersIn(b, [h] + hs, lo, hi)
  {
    assert ([h] + hs)[1..] == hs;
    HeadersReach(b, hs, mid, hi);
    HeadersWiden(b, hs, mid, hi, h.value.start + h.value.len);
  }

  lemma {:induction false} HeadersReach(b: seq<byte>, hs: seq<Header>, lo: nat, hi: nat)
    requires HeadersIn(b, hs, lo, hi)
    ensures lo <= hi <= |b|
    decreases |hs|
  {
    if hs != [] {
      HeadersReach(b, hs[1..], hs[0].value.start + hs[0].value.len, hi);
    }
  }

  lemma HeadersWiden(b: seq<byte>, hs: seq<Header>, lo: nat, hi: nat, lo': nat)
    requires HeadersIn(b, hs, lo, hi) && lo' <= lo
    ensures HeadersIn(b, hs, lo', hi)
  {
  }

  ghost predicate HeadersOk(b: seq<byte>, hs: seq<Header>, continues: bool) {
    forall k :: 0 <= k < |hs| ==> HeaderIn(b, hs[k]) && FieldOk(FieldOf(b, hs[k]), continues || k > 0)
  }

  lemma {:induction false} HeadersSound(b: seq<byte>, i: nat, n: nat, max: nat)
    requires i <= |b| && n <= max && Headers(b, i, n, max).Ok?
    ensures var r := Headers(b, i, n, max);
            HeadersIn(b, r.value, i, r.next) && HeadersOk(b, r.value, n != 0)
    decreases |b| - i
  {
    if !StartsEol(b[i]) {
      var line := FieldLine(b, i, n != 0);
      var rest := Headers(b, line.next, n + 1, max);
      FieldLineSound(b, i, n != 0);
      HeadersSound(b, line.next, n + 1, max);
      HeadersInCons(b, line.value, rest.value, i, line.next, rest.next);
    }
  }

  lemma FieldsSound(b: seq<byte>, i: nat, max: nat)
    requires i <= |b| && Headers(b, i, 0, max).Ok?
    ensures var r := Headers(b, i, 0, max);
            && HeadersIn(b, r.value, i, r.next)
            && (forall h <- r.value :: HeaderIn(b, h))
            && FieldsOk(FieldsOf(b, r.value), false)
  {
    HeadersSound(b, i, 0, max);
    HeadersInside(b, Headers(b, i, 0, max).value, i, Headers(b, i, 0, max).next);
  }

  lemma TargetSound(b: seq<byte>, i: nat)
    requires i <= |b| && Target(b, i).Ok?
    ensures var r := Target(b, i); var (verb, path) := r.value;
            && verb.start + verb.len < path.start && path.start + path.len < r.next <= |b|
            && IsToken(Text(b, verb)) && PathOk(Text(b, path))
  {
    var j := Token(b, i, EndsVerb, SP).next;
    var k := Spaces(b, j).next;
    var l := Token(b, k, EndsPath, SP).next;
    assert forall x :: i <= x < j ==> !EndsVerb(b[x]);
    assert forall x :: k <= x < l ==> !EndsPath(b[x]);
  }

  /** The spans of an accepted request lie in what it consumes, in order and apart, and spell a
      well-formed request. */
  lemma RequestSound(b: seq<byte>, max: nat)
    requires ParseRequest(b, max).Ok?
    ensures var r := ParseRequest(b, max);
            && |r.value.headers| <= max
            && RequestIn(b, r.value, r.next) && RequestOk(RequestOf(b, r.value, r.next))
  {
    var r := ParseRequest(b, max);
    var i := LeadingEol(b).next;
    var j := ParseLine(b, i).next;
    TargetSound(b, i);
    FieldsSound(b, j, max);
    var path := r.value.line.path;
    HeadersWiden(b, r.value.headers, j, r.next, path.start + path.len);
  }

  lemma ReasonSound(b: seq<byte>, i: nat)
    requires i <= |b| && Reason(b, i).Ok?
    ensures ReasonOk(Text(b, Reason(b, i).value))
  {
    var s := ToEol(b, i).value;
    assert forall k :: i <= k < i + s.len ==> !EndsLine(b[k]);
  }

  lemma ResponseSound(b: seq<byte>, max: nat)
    requires ParseResponse(b, max).Ok?
    ensures var r := ParseResponse(b, max);
            && |r.value.headers| <= max
            && ResponseIn(b, r.value, r.next) && ResponseOk(ResponseOf(b, r.value, r.next))
  {
    var r := ParseResponse(b, max);
    var k := Status(b, Spaces(b, 8).next).next;
    var j := ParseStatusLine(b).next;
    ReasonSound(b, k);
    FieldsSound(b, j, max);
    var reason := r.value.line.reason;
    HeadersWiden(b, r.value.headers, j, r.next, reason.start + reason.len);
  }
}
