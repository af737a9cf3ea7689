/**
 More input never changes a verdict: what was accepted or refused stays so, with the same
 spans, however the buffer is extended.
 */
module HttpStability {
  import opened Bytes
  import opened HttpSpec

  /** A verdict is kept unless it was Partial. */
  ghost predicate Kept<T>(r: Parsed<T>, r': Parsed<T>) {
    r.Partial? || r' == r
  }

  lemma {:induction false} FindKept(b: seq<byte>, e: seq<byte>, i: nat, stop: byte -> bool)
    requires i <= |b|
    ensures Find(b, i, stop) < |b| ==> Find(b + e, i, stop) == Find(b, i, stop)
    decreases |b| - i
  {
    if i < |b| {
      assert (b + e)[i] == b[i];
      if !stop(b[i]) {
        FindKept(b, e, i + 1, stop);
      }
    }
  }

  lemma TokenKept(b: seq<byte>, e: seq<byte>, i: nat, stop: byte -> bool, next: byte)
    requires i <= |b|
    ensures Kept(Token(b, i, stop, next), Token(b + e, i, stop, next))
  {
    FindKept(b, e, i, stop);
  }

  lemma SpacesKept(b: seq<byte>, e: seq<byte>, i: nat)
    requires i < |b|
    ensures Kept(Spaces(b, i), Spaces(b + e, i))
  {
    FindKept(b, e, i + 1, NotSpace);
  }

  lemma ToEolKept(b: seq<byte>, e: seq<byte>, i: nat)
    requires i <= |b|
    ensures Kept(ToEol(b, i), ToEol(b + e, i))
  {
    FindKept(b, e, i, EndsLine);
  }

  lemma VersionKept(b: seq<byte>, e: seq<byte>, i: nat)
    requires i <= |b|
    ensures Kept(Version(b, i), Version(b + e, i))
  {
    if |b| - i >= 9 {
      assert (b + e)[i..i + 7] == b[i..i + 7];
    }
  }

  lemma {:induction false} TrimEndKept(b: seq<byte>, e: seq<byte>, s: Span)
    requires s.start + s.len <= |b|
    ensures TrimEnd(b + e, s) == TrimEnd(b, s)
    decreases s.len
  {
    if s.len > 0 && IsBlank(b[s.start + s.len - 1]) {
      TrimEndKept(b, e, Span(s.start, s.len - 1));
    }
  }

  lemma FieldNameKept(b: seq<byte>, e: seq<byte>, i: nat, continues: bool)
    requires i < |b|
    ensures Kept(FieldName(b, i, continues), FieldName(b + e, i, continues))
  {
    TokenKept(b, e, i, EndsName, COLON);
    var t := Token(b, i, EndsName, COLON);
    if t.Ok? {
      FindKept(b, e, t.next + 1, NotBlank);
    }
  }

  lemma FieldLineKept(b: seq<byte>, e: seq<byte>, i: nat, continues: bool)
    requires i < |b|
    ensures Kept(FieldLine(b, i, continues), FieldLine(b + e, i, continues))
  {
    FieldNameKept(b, e, i, continues);
    var name := FieldName(b, i, continues);
    if name.Ok? {
      ToEolKept(b, e, name.next);
      var value := ToEol(b, name.next);
      if value.Ok? {
        TrimEndKept(b, e, value.value);
      }
    }
  }

  lemma {:induction false} HeadersKept(b: seq<byte>, e: seq<byte>, i: nat, n: nat, max: nat)
    requires i <= |b| && n <= max
    ensures Kept(Headers(b, i, n, max), Headers(b + e, i, n, max))
    decreases |b| - i
  {
    if i < |b| && !StartsEol(b[i]) && n < max {
      FieldLineKept(b, e, i, n != 0);
      var line := FieldLine(b, i, n != 0);
      if line.Ok? {
        HeadersKept(b, e, line.next, n + 1, max);
      }
    }
  }

  lemma TargetKept(b: seq<byte>, e: seq<byte>, i: nat)
    requires i <= |b|
    ensures Kept(Target(b, i), Target(b + e, i))
  {
    TokenKept(b, e, i, EndsVerb, SP);
    var verb := Token(b, i, EndsVerb, SP);
    if verb.Ok? {
      SpacesKept(b, e, verb.next);
      var gap := Spaces(b, verb.next);
      if gap.Ok? {
        TokenKept(b, e, gap.next, EndsPath, SP);
        var path := Token(b, gap.next, EndsPath, SP);
        if path.Ok? {
          SpacesKept(b, e, path.next);
        }
      }
    }
  }

  lemma VersionLineKept(b: seq<byte>, e: seq<byte>, i: nat)
    requires i <= |b|
    ensures Kept(VersionLine(b, i), VersionLine(b + e, i))
  {
    VersionKept(b, e, i);
  }

  lemma ParseLineKept(b: seq<byte>, e: seq<byte>, i: nat)
    requires i <= |b|
    ensures Kept(ParseLine(b, i), ParseLine(b + e, i))
  {
    TargetKept(b, e, i);
    var t := Target(b, i);
    if t.Ok? {
      VersionLineKept(b, e, t.next);
    }
  }

  /** A request accepted or refused is so in every longer buffer. */
  lemma RequestKept(b: seq<byte>, e: seq<byte>, max: nat)
    ensures Kept(ParseRequest(b, max), ParseRequest(b + e, max))
  {
    var start := LeadingEol(b);
    assert Kept(start, LeadingEol(b + e));
    if start.Ok? {
      ParseLineKept(b, e, start.next);
      var line := ParseLine(b, start.next);
      if line.Ok? {
        HeadersKept(b, e, line.next, 0, max);
      }
    }
  }

  lemma ReasonKept(b: seq<byte>, e: seq<byte>, i: nat)
    requires i <= |b|
    ensures Kept(Reason(b, i), Reason(b + e, i))
  {
    ToEolKept(b, e, i);
    var s := ToEol(b, i);
    if s.Ok? {
      var n := i + s.value.len;
      assert (b + e)[..n] == b[..n];
    }
  }

  lemma StatusLineKept(b: seq<byte>, e: seq<byte>)
    ensures Kept(ParseStatusLine(b), ParseStatusLine(b + e))
  {
    VersionKept(b, e, 0);
    var v := Version(b, 0);
    if v.Ok? {
      SpacesKept(b, e, v.next);
      var gap := Spaces(b, v.next);
      if gap.Ok? {
        var status := Status(b, gap.next);
        assert Kept(status, Status(b + e, gap.next));
        if status.Ok? {
          ReasonKept(b, e, status.next);
        }
      }
    }
  }

  lemma ResponseKept(b: seq<byte>, e: seq<byte>, max: nat)
    ensures Kept(ParseResponse(b, max), ParseResponse(b + e, max))
  {
    StatusLineKept(b, e);
    var line := ParseStatusLine(b);
    if line.Ok? {
      HeadersKept(b, e, line.next, 0, max);
    }
  }

  /** Of an accepted message, every prefix shorter than what is consumed is partial. */
  lemma ShorterIsPartial(b: seq<byte>, max: nat, n: nat)
    requires n <= |b|
    ensures ParseRequest(b, max).Ok? && n < ParseRequest(b, max).next ==> ParseRequest(b[..n], max).Partial?
    ensures ParseResponse(b, max).Ok? && n < ParseResponse(b, max).next ==> ParseResponse(b[..n], max).Partial?
    ensures Headers(b, 0, 0, max).Ok? && n < Headers(b, 0, 0, max).next ==> Headers(b[..n], 0, 0, max).Partial?
  {
    assert b == b[..n] + b[n..];
    RequestKept(b[..n], b[n..], max);
    ResponseKept(b[..n], b[n..], max);
    HeadersKept(b[..n], b[n..], 0, 0, max);
  }
}
