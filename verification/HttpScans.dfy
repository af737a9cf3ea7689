/**
 The scans as the C code runs them: 16 octets at a time where SSE 4.2 is there, eight at a time
 where it is not, and an octet-wise loop behind both. Each finds what the plain scan of
 HttpSpec.dfy finds.
 */
module HttpScans {
  import opened Bytes
  import opened HttpSpec

  // Pairs of bounds, as they are laid out for the string instruction.
  const EOL_RANGES: seq<byte> := [0, 8, 10, 31, 127, 127]
  const PATH_RANGES: seq<byte> := [0, 32, 127, 127]
  const TOKEN_RANGES: seq<byte> := [0, 32, 34, 34, 40, 41, 44, 44, 47, 47, 58, 64, 91, 93, 123, 255]

  predicate InRanges(c: byte, ranges: seq<byte>) {
    exists i :: 0 <= i < |ranges| / 2 && Between(c, ranges, i)
  }

  predicate Between(c: byte, ranges: seq<byte>, i: nat)
    requires i < |ranges| / 2
  {
    ranges[2 * i] <= c <= ranges[2 * i + 1]
  }

  /** The compare instruction: index of the first of 16 octets that falls in a range, else 16. */
  function FirstInRanges(ranges: seq<byte>, block: seq<byte>): (r: nat)
    requires |block| == 16
    ensures r <= 16
    ensures forall k :: 0 <= k < r ==> !InRanges(block[k], ranges)
    ensures r < 16 ==> InRanges(block[r], ranges)
  {
    Find(block, 0, (c: byte) => InRanges(c, ranges))
  }

  method FindcharFast(b: seq<byte>, start: nat, ranges: seq<byte>, sse: bool) returns (pos: nat, found: bool)
    requires start <= |b|
    ensures start <= pos <= |b|
    ensures forall k :: start <= k < pos ==> !InRanges(b[k], ranges)
    ensures found ==> pos < |b| && InRanges(b[pos], ranges)
    ensures !sse ==> pos == start && !found
  {
    pos, found := start, false;
    if sse && |b| - pos >= 16 {
      var left := (|b| - pos) / 16 * 16;
      while left != 0
        invariant start <= pos && 0 <= left && left % 16 == 0 && pos + left <= |b|
        invariant forall k :: start <= k < pos ==> !InRanges(b[k], ranges)
      {
        var block := b[pos..pos + 16];
        var r := FirstInRanges(ranges, block);
        assert forall k :: pos <= k < pos + r ==> b[k] == block[k - pos];
        if r != 16 {
          return pos + r, true;
        }
        pos, left := pos + 16, left - 16;
      }
    }
  }

  predicate IsPrintableAscii(c: byte) { 32 <= c < 127 }

  lemma EolRanges(c: byte)
    ensures InRanges(c, EOL_RANGES) <==> EndsLine(c)
  {
    assert Between(c, EOL_RANGES, 0) || Between(c, EOL_RANGES, 1) || Between(c, EOL_RANGES, 2) <==> EndsLine(c);
  }

  lemma PathRanges(c: byte)
    ensures InRanges(c, PATH_RANGES) <==> EndsPath(c)
  {
    assert Between(c, PATH_RANGES, 0) || Between(c, PATH_RANGES, 1) <==> EndsPath(c);
  }

  /** The string instruction has room for eight ranges only: '|' and '~' are left to the slow loop. */
  lemma TokenRanges(c: byte)
    ensures InRanges(c, TOKEN_RANGES) <==> !IsTokenChar(c) || c == 124 || c == 126
  {
    assert Between(c, TOKEN_RANGES, 0) || Between(c, TOKEN_RANGES, 1) || Between(c, TOKEN_RANGES, 2)
           || Between(c, TOKEN_RANGES, 3) || Between(c, TOKEN_RANGES, 4) || Between(c, TOKEN_RANGES, 5)
           || Between(c, TOKEN_RANGES, 6) || Between(c, TOKEN_RANGES, 7)
           <==> !IsTokenChar(c) || c == 124 || c == 126;
  }

  /** The fast part of get_token_to_eol: found says that pos is at the octet ending the line. */
  method SkipLineFast(b: seq<byte>, start: nat, sse: bool) returns (pos: nat, found: bool)
    requires start <= |b|
    ensures start <= pos <= |b|
    ensures forall k :: start <= k < pos ==> !EndsLine(b[k])
    ensures found ==> pos < |b| && EndsLine(b[pos])
  {
    if sse {
      pos, found := FindcharFast(b, start, EOL_RANGES, true);
      forall k | start <= k <= pos && k < |b|
        ensures InRanges(b[k], EOL_RANGES) <==> EndsLine(b[k])
      {
        EolRanges(b[k]);
      }
      return;
    }
    pos, found := start, false;
    while |b| - pos >= 8
      invariant start <= pos <= |b|
      invariant forall k :: start <= k < pos ==> !EndsLine(b[k])
      decreases |b| - pos
    {
      // eight tests in a row, unrolled in the source
      var done := 0;
      ghost var from := pos;
      while done < 8 && IsPrintableAscii(b[pos])
        invariant 0 <= done <= 8 && pos == from + done && |b| - from >= 8
        invariant done < 8 ==> pos < |b|
        invariant forall k :: start <= k < pos ==> !EndsLine(b[k])
      {
        pos, done := pos + 1, done + 1;
      }
      if done < 8 {
        if EndsLine(b[pos]) {
          return pos, true;
        }
        pos := pos + 1;
      }
    }
  }

  method GetTokenToEol(b: seq<byte>, start: nat, sse: bool) returns (r: Parsed<Span>)
    requires start <= |b|
    ensures r == ToEol(b, start)
  {
    var pos, found := SkipLineFast(b, start, sse);
    while !found
      invariant start <= pos <= |b|
      invariant forall k :: start <= k < pos ==> !EndsLine(b[k])
      invariant found ==> pos < |b| && EndsLine(b[pos])
      decreases |b| - pos, !found
    {
      if pos == |b| {
        return Partial;
      }
      if !IsPrintableAscii(b[pos]) && EndsLine(b[pos]) {
        found := true;
      } else {
        pos := pos + 1;
      }
    }
    FindIs(b, start, EndsLine, pos);
    if b[pos] == CR {
      if pos + 1 == |b| {
        return Partial;
      }
      if b[pos + 1] != LF {
        return Bad;
      }
      return Ok(Span(start, pos - start), pos + 2);
    } else if b[pos] == LF {
      return Ok(Span(start, pos - start), pos + 1);
    }
    return Bad;
  }

  /** What ends a token that next must follow. */
  function EndsToken(next: byte): (stop: byte -> bool)
    requires next == SP || next == COLON
    ensures forall c: byte :: stop(c) <==> c == next || !IsTokenChar(c)
  {
    if next == SP then EndsVerb else EndsName
  }

  method ParseToken(b: seq<byte>, start: nat, next: byte, sse: bool) returns (r: Parsed<Span>)
    requires start <= |b| && (next == SP || next == COLON)
    ensures r == Token(b, start, EndsToken(next), next)
  {
    var stop := EndsToken(next);
    var pos, found := FindcharFast(b, start, TOKEN_RANGES, sse);
    forall k | start <= k < pos
      ensures !stop(b[k])
    {
      TokenRanges(b[k]);
    }
    if !found && pos == |b| {
      return Partial;
    }
    while b[pos] != next
      invariant start <= pos < |b|
      invariant forall k :: start <= k < pos ==> !stop(b[k])
      decreases |b| - pos
    {
      if !IsTokenChar(b[pos]) {
        FindIs(b, start, stop, pos);
        return Bad;
      }
      pos := pos + 1;
      if pos == |b| {
        return Partial;
      }
    }
    FindIs(b, start, stop, pos);
    r := Ok(Span(start, pos - start), pos);
  }

  method AdvanceToken(b: seq<byte>, start: nat, sse: bool) returns (r: Parsed<Span>)
    requires start <= |b|
    ensures r == Token(b, start, EndsPath, SP)
  {
    var pos, found := FindcharFast(b, start, PATH_RANGES, sse);
    forall k | start <= k < pos
      ensures !EndsPath(b[k])
    {
      PathRanges(b[k]);
    }
    if !found && pos == |b| {
      return Partial;
    }
    while b[pos] != SP
      invariant start <= pos < |b|
      invariant forall k :: start <= k < pos ==> !EndsPath(b[k])
      decreases |b| - pos
    {
      if !IsPrintableAscii(b[pos]) && (b[pos] < 32 || b[pos] == DEL) {
        FindIs(b, start, EndsPath, pos);
        return Bad;
      }
      pos := pos + 1;
      if pos == |b| {
        return Partial;
      }
    }
    FindIs(b, start, EndsPath, pos);
    r := Ok(Span(start, pos - start), pos);
  }
}
