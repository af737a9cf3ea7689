/**
 An accepted message was decided by the octets it consumes: it is accepted as soon as the last
 of them has arrived. Tokens, versions and status codes need one octet beyond.
 */
module HttpLocality {
  import opened Bytes
  import opened HttpSpec
  import opened HttpStability

  lemma {:induction false} FindCut(b: seq<byte>, m: nat, i: nat, stop: byte -> bool)
    requires i <= m <= |b| && Find(b, i, stop) < m
    ensures Find(b[..m], i, stop) == Find(b, i, stop)
    decreases |b| - i
  {
    if !stop(b[i]) {
      FindCut(b, m, i + 1, stop);
    }
  }

  lemma TokenCut(b: seq<byte>, m: nat, i: nat, stop: byte -> bool, next: byte)
    requires i <= m <= |b| && Token(b, i, stop, next).Ok? && Token(b, i, stop, next).next < m
    ensures Token(b[..m], i, stop, next) == Token(b, i, stop, next)
  {
    FindCut(b, m, i, stop);
  }

  lemma SpacesCut(b: seq<byte>, m: nat, i: nat)
    requires i < m <= |b| && Spaces(b, i).Ok? && Spaces(b, i).next < m
    ensures Spaces(b[..m], i) == Spaces(b, i)
  {
    FindCut(b, m, i + 1, NotSpace);
  }

  lemma ToEolCut(b: seq<byte>, m: nat, i: nat)
    requires i <= m <= |b| && ToEol(b, i).Ok? && ToEol(b, i).next <= m
    ensures ToEol(b[..m], i) == ToEol(b, i)
  {
    FindCut(b, m, i, EndsLine);
  }

  lemma VersionCut(b: seq<byte>, m: nat, i: nat)
    requires i <= m <= |b| && Version(b, i).Ok? && Version(b, i).next < m
    ensures Version(b[..m], i) == Version(b, i)
  {
    assert b[..m][i..i + 7] == b[i..i + 7];
  }

  lemma FieldNameCut(b: seq<byte>, m: nat, i: nat, continues: bool)
    requires i < m <= |b| && FieldName(b, i, continues).Ok? && FieldName(b, i, continues).next < m
    ensures FieldName(b[..m], i, continues) == FieldName(b, i, continues)
  {
    if FieldName(b, i, continues).value.Some? {
      TokenCut(b, m, i, EndsName, COLON);
      FindCut(b, m, Token(b, i, EndsName, COLON).next + 1, NotBlank);
    }
  }

  lemma FieldLineCut(b: seq<byte>, m: nat, i: nat, continues: bool)
    requires i < m <= |b| && FieldLine(b, i, continues).Ok? && FieldLine(b, i, continues).next <= m
    ensures FieldLine(b[..m], i, continues) == FieldLine(b, i, continues)
  {
    var j := FieldName(b, i, continues).next;
    FieldNameCut(b, m, i, continues);
    ToEolCut(b, m, j);
    TrimEndCut(b, m, ToEol(b, j).value);
  }

  lemma TrimEndCut(b: seq<byte>, m: nat, s: Span)
    requires s.start + s.len <= m <= |b|
    ensures TrimEnd(b[..m], s) == TrimEnd(b, s)
  {
    assert b[..m] + b[m..] == b;
    TrimEndKept(b[..m], b[m..], s);
  }

  lemma {:induction false} HeadersCut(b: seq<byte>, m: nat, i: nat, n: nat, max: nat)
    requires i <= m <= |b| && n <= max
    requires Headers(b, i, n, max).Ok? && Headers(b, i, n, max).next <= m
    ensures Headers(b[..m], i, n, max) == Headers(b, i, n, max)
    decreases |b| - i
  {
    if !StartsEol(b[i]) {
      var line := FieldLine(b, i, n != 0);
      FieldLineCut(b, m, i, n != 0);
      HeadersCut(b, m, line.next, n + 1, max);
    }
  }

  lemma TargetCut(b: seq<byte>, m: nat, i: nat)
    requires i <= m <= |b| && Target(b, i).Ok? && Target(b, i).next < m
    ensures Target(b[..m], i) == Target(b, i)
  {
    var verb := Token(b, i, EndsVerb, SP);
    var gap := Spaces(b, verb.next);
    var path := Token(b, gap.next, EndsPath, SP);
    TokenCut(b, m, i, EndsVerb, SP);
    SpacesCut(b, m, verb.next);
    TokenCut(b, m, gap.next, EndsPath, SP);
    SpacesCut(b, m, path.next);
  }

  lemma VersionLineCut(b: seq<byte>, m: nat, i: nat)
    requires i <= m <= |b| && VersionLine(b, i).Ok? && VersionLine(b, i).next <= m
    ensures VersionLine(b[..m], i) == VersionLine(b, i)
  {
    VersionCut(b, m, i);
  }

  lemma ParseLineCut(b: seq<byte>, m: nat, i: nat)
    requires i <= m <= |b| && ParseLine(b, i).Ok? && ParseLine(b, i).next <= m
    ensures ParseLine(b[..m], i) == ParseLine(b, i)
  {
    TargetCut(b, m, i);
    VersionLineCut(b, m, Target(b, i).next);
  }

  lemma RequestCut(b: seq<byte>, m: nat, max: nat)
    requires m <= |b| && ParseRequest(b, max).Ok? && ParseRequest(b, max).next <= m
    ensures ParseRequest(b[..m], max) == ParseRequest(b, max)
  {
    var start := LeadingEol(b);
    assert LeadingEol(b[..m]) == start;
    ParseLineCut(b, m, start.next);
    HeadersCut(b, m, ParseLine(b, start.next).next, 0, max);
  }

  lemma ReasonCut(b: seq<byte>, m: nat, i: nat)
    requires i <= m <= |b| && Reason(b, i).Ok? && Reason(b, i).next <= m
    ensures Reason(b[..m], i) == Reason(b, i)
  {
    ToEolCut(b, m, i);
    var n := i + ToEol(b, i).value.len;
    assert b[..m][..n] == b[..n];
  }

  lemma StatusLineCut(b: seq<byte>, m: nat)
    requires m <= |b| && ParseStatusLine(b).Ok? && ParseStatusLine(b).next <= m
    ensures ParseStatusLine(b[..m]) == ParseStatusLine(b)
  {
    VersionCut(b, m, 0);
    var gap := Spaces(b, Version(b, 0).next);
    SpacesCut(b, m, Version(b, 0).next);
    ReasonCut(b, m, Status(b, gap.next).next);
  }

  lemma ResponseCut(b: seq<byte>, m: nat, max: nat)
    requires m <= |b| && ParseResponse(b, max).Ok? && ParseResponse(b, max).next <= m
    ensures ParseResponse(b[..m], max) == ParseResponse(b, max)
  {
    StatusLineCut(b, m);
    HeadersCut(b, m, ParseStatusLine(b).next, 0, max);
  }
}
