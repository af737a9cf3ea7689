/**
 The language the decoder accepts: chunked bodies as section 4.1 of RFC 7230 writes them, with
 the liberties the code takes (any number of CRs before an LF, leading zeros in sizes,
 trailer lines not looked into). Decoding an encoded body gives its payload, and whatever
 decodes to the end is the encoding of some body.

 Encodings are written in front of what follows them, so that `more` is always last.
 */
module ChunkedCodec {
  import opened Bytes
  import opened ChunkedSpec

  const SEMICOLON: byte := 59

  /** ext runs from the end of the size to the LF; RFC 7230 would have it end in CR, and crs == 1. */
  datatype Chunk = Chunk(size: seq<byte>, ext: seq<byte>, data: seq<byte>, crs: nat)

  datatype Trailer = Trailer(crs: nat, text: seq<byte>)

  datatype Body = Body(chunks: seq<Chunk>, lastSize: seq<byte>, lastExt: seq<byte>, trailers: seq<Trailer>, crs: nat)

  function Crs(n: nat): (s: seq<byte>) {
    seq(n, _ => CR)
  }

  ghost predicate SizeOk(size: seq<byte>, ext: seq<byte>) {
    && 1 <= |size| <= MAX_HEX && IsHex(size)
    && LF !in ext && (ext != [] ==> !IsHexDigit(ext[0]))
  }

  ghost predicate ChunkOk(c: Chunk) {
    SizeOk(c.size, c.ext) && |c.data| == HexValue(c.size) > 0
  }

  ghost predicate TrailerOk(t: Trailer) {
    t.text != [] && t.text[0] != CR && LF !in t.text
  }

  ghost predicate BodyOk(b: Body) {
    && (forall c <- b.chunks :: ChunkOk(c))
    && SizeOk(b.lastSize, b.lastExt) && HexValue(b.lastSize) == 0
    && (forall t <- b.trailers :: TrailerOk(t))
  }

  function EndLine(crs: nat, more: seq<byte>): seq<byte> {
    Crs(crs) + ([LF] + more)
  }

  function EncodeHead(size: seq<byte>, ext: seq<byte>, more: seq<byte>): seq<byte> {
    size + (ext + ([LF] + more))
  }

  function EncodeChunks(cs: seq<Chunk>, more: seq<byte>): seq<byte> {
    if cs == [] then more
    else EncodeHead(cs[0].size, cs[0].ext, cs[0].data + EndLine(cs[0].crs, EncodeChunks(cs[1..], more)))
  }

  function EncodeTrailer(t: Trailer, more: seq<byte>): seq<byte> {
    Crs(t.crs) + (t.text + ([LF] + more))
  }

  function EncodeTrailers(ts: seq<Trailer>, crs: nat, more: seq<byte>): seq<byte> {
    if ts == [] then EndLine(crs, more) else EncodeTrailer(ts[0], EncodeTrailers(ts[1..], crs, more))
  }

  /** What the decoder consumes, up to the last-chunk line or with the trailers and the blank
      line, and then more. */
  function Encode(b: Body, consumeTrailer: bool, more: seq<byte>): seq<byte> {
    EncodeChunks(b.chunks,
                 EncodeHead(b.lastSize, b.lastExt,
                            if consumeTrailer then EncodeTrailers(b.trailers, b.crs, more) else more))
  }

  function Payload(cs: seq<Chunk>): seq<byte> {
    if cs == [] then [] else cs[0].data + Payload(cs[1..])
  }

  /** After, for an outcome known to leave `left` octets of its own input. */
  ghost predicate Yields(d: Decoder, input: seq<byte>, output: seq<byte>, d': Decoder, more: seq<byte>) {
    |more| <= |input| && Run(d, input) == After(output, |input| - |more|, Run(d', more))
  }

  lemma YieldsThen(d: Decoder, input: seq<byte>, o1: seq<byte>, d1: Decoder, mid: seq<byte>,
                   o2: seq<byte>, d2: Decoder, more: seq<byte>)
    requires Yields(d, input, o1, d1, mid) && Yields(d1, mid, o2, d2, more)
    ensures Yields(d, input, o1 + o2, d2, more)
  {
    AfterTwice(o1, |input| - |mid|, o2, |mid| - |more|, Run(d2, more));
  }

  lemma YieldsStep(d: Decoder, b: byte, more: seq<byte>)
    requires Step(d, b).Next? && !Step(d, b).emit
    ensures Yields(d, [b] + more, [], Step(d, b).decoder, more)
  {
    assert ([b] + more)[1..] == more;
  }

  /** A stretch in which every octet leaves the decoder as it is. */
  lemma {:induction false} YieldsSilent(d: Decoder, text: seq<byte>, more: seq<byte>)
    requires forall b <- text :: Step(d, b) == Next(d, false)
    ensures Yields(d, text + more, [], d, more)
    decreases |text|
  {
    if text == [] {
      assert text + more == more;
      AfterNothing(Run(d, more));
    } else {
      assert text + more == [text[0]] + (text[1..] + more);
      YieldsStep(d, text[0], text[1..] + more);
      YieldsSilent(d, text[1..], more);
      YieldsThen(d, text + more, [], d, text[1..] + more, [], d, more);
    }
  }

  lemma YieldsLine(d: Decoder, crs: nat, d': Decoder, more: seq<byte>)
    requires Step(d, CR) == Next(d, false) && Step(d, LF) == Next(d', false)
    ensures Yields(d, EndLine(crs, more), [], d', more)
  {
    YieldsSilent(d, Crs(crs), [LF] + more);
    YieldsStep(d, LF, more);
    YieldsThen(d, EndLine(crs, more), [], d, [LF] + more, [], d', more);
  }

  /** The decoder behind the LF of a chunk-size line. */
  function HeadDone(consumeTrailer: bool, n: nat): Decoder {
    Decoder(n, consumeTrailer, 0,
            if n != 0 then ChunkData else if consumeTrailer then TrailersLineHead else ChunkExt)
  }

  function InExt(consumeTrailer: bool, n: nat): Decoder {
    Decoder(n, consumeTrailer, 0, ChunkExt)
  }

  lemma YieldsSize(ct: bool, size: seq<byte>, tail: seq<byte>)
    requires 1 <= |size| <= MAX_HEX && IsHex(size)
    requires tail != [] && !IsHexDigit(tail[0])
    ensures Yields(ZeroFilled(ct), size + tail, [], InExt(ct, HexValue(size)), tail)
  {
    RunFirstDigits(ct, size, tail);
    assert Run(Decoder(HexValue(size), ct, |size|, ChunkSize), tail) == Run(InExt(ct, HexValue(size)), tail);
  }

  lemma RunHead(ct: bool, size: seq<byte>, ext: seq<byte>, more: seq<byte>)
    requires SizeOk(size, ext)
    ensures var n := HexValue(size); var input := EncodeHead(size, ext, more);
            if n == 0 && !ct
            then Run(ZeroFilled(ct), input) == Outcome(Complete, HeadDone(ct, n), [], |input| - |more|)
            else Yields(ZeroFilled(ct), input, [], HeadDone(ct, n), more)
  {
    var n := HexValue(size);
    var input, tail := EncodeHead(size, ext, more), ext + ([LF] + more);
    YieldsSize(ct, size, tail);
    YieldsSilent(InExt(ct, n), ext, [LF] + more);
    YieldsThen(ZeroFilled(ct), input, [], InExt(ct, n), tail, [], InExt(ct, n), [LF] + more);
    if !(n == 0 && !ct) {
      YieldsStep(InExt(ct, n), LF, more);
      YieldsThen(ZeroFilled(ct), input, [], InExt(ct, n), [LF] + more, [], HeadDone(ct, n), more);
    }
  }

  /** An extension begins with a semicolon, and is not taken for more digits of the size. */
  lemma ExtensionReads(ct: bool, size: seq<byte>, ext: seq<byte>, more: seq<byte>)
    requires 1 <= |size| <= MAX_HEX && IsHex(size) && LF !in ext
    ensures var n := HexValue(size); var input := size + ([SEMICOLON] + ext + ([LF] + more));
            if n == 0 && !ct
            then Run(ZeroFilled(ct), input) == Outcome(Complete, HeadDone(ct, n), [], |input| - |more|)
            else Yields(ZeroFilled(ct), input, [], HeadDone(ct, n), more)
  {
    var line := [SEMICOLON] + ext;
    assert LF !in line && line[0] == SEMICOLON;
    RunHead(ct, size, line, more);
  }

  lemma YieldsData(ct: bool, data: seq<byte>, crs: nat, more: seq<byte>)
    requires data != []
    ensures Yields(HeadDone(ct, |data|), data + EndLine(crs, more), data, ZeroFilled(ct), more)
  {
    var n, end := |data|, EndLine(crs, more);
    var input, d := data + end, Decoder(0, ct, 0, ChunkCrlf);
    RunData(HeadDone(ct, n), input, n);
    assert input[..n] == data && input[n..] == end;
    YieldsLine(d, crs, ZeroFilled(ct), more);
    YieldsThen(HeadDone(ct, n), input, data, d, end, [], ZeroFilled(ct), more);
    assert data + [] == data;
  }

  lemma {:induction false} RunChunks(ct: bool, cs: seq<Chunk>, more: seq<byte>)
    requires forall c <- cs :: ChunkOk(c)
    ensures Yields(ZeroFilled(ct), EncodeChunks(cs, more), Payload(cs), ZeroFilled(ct), more)
    decreases |cs|
  {
    var z, input := ZeroFilled(ct), EncodeChunks(cs, more);
    if cs == [] {
      AfterNothing(Run(z, more));
    } else {
      var c := cs[0];
      assert ChunkOk(c);
      var rest := EncodeChunks(cs[1..], more);
      var tail := c.data + EndLine(c.crs, rest);
      RunHead(ct, c.size, c.ext, tail);
      YieldsData(ct, c.data, c.crs, rest);
      YieldsThen(z, input, [], HeadDone(ct, |c.data|), tail, c.data, z, rest);
      assert [] + c.data == c.data;
      RunChunks(ct, cs[1..], more);
      YieldsThen(z, input, c.data, z, rest, Payload(cs[1..]), z, more);
    }
  }

  lemma RunTrailer(t: Trailer, more: seq<byte>)
    requires TrailerOk(t)
    ensures Yields(HeadDone(true, 0), EncodeTrailer(t, more), [], HeadDone(true, 0), more)
  {
    var d, m := HeadDone(true, 0), Decoder(0, true, 0, TrailersLineMiddle);
    var input, end := EncodeTrailer(t, more), [LF] + more;
    var rest := t.text[1..] + end;
    assert t.text + end == [t.text[0]] + rest;
    YieldsSilent(d, Crs(t.crs), [t.text[0]] + rest);
    YieldsStep(d, t.text[0], rest);
    YieldsThen(d, input, [], d, [t.text[0]] + rest, [], m, rest);
    YieldsSilent(m, t.text[1..], end);
    YieldsThen(d, input, [], m, rest, [], m, end);
    YieldsStep(m, LF, more);
    YieldsThen(d, input, [], m, end, [], d, more);
  }

  lemma {:induction false} RunTrailers(ts: seq<Trailer>, crs: nat, more: seq<byte>)
    requires forall t <- ts :: TrailerOk(t)
    ensures var input := EncodeTrailers(ts, crs, more);
            && |more| < |input|
            && Run(HeadDone(true, 0), input) == Outcome(Complete, HeadDone(true, 0), [], |input| - |more|)
    decreases |ts|
  {
    if ts == [] {
      YieldsSilent(HeadDone(true, 0), Crs(crs), [LF] + more);
    } else {
      RunTrailer(ts[0], EncodeTrailers(ts[1..], crs, more));
      RunTrailers(ts[1..], crs, more);
    }
  }

  /** Decoding an encoded body gives the payload and stops exactly where the encoding ends. */
  lemma RoundTrip(b: Body, ct: bool, more: seq<byte>)
    requires BodyOk(b)
    ensures var input := Encode(b, ct, more);
            && |more| < |input|
            && Run(ZeroFilled(ct), input) ==
               Outcome(Complete, HeadDone(ct, 0), Payload(b.chunks), |input| - |more|)
  {
    var tail := if ct then EncodeTrailers(b.trailers, b.crs, more) else more;
    var last := EncodeHead(b.lastSize, b.lastExt, tail);
    RunChunks(ct, b.chunks, last);
    RunHead(ct, b.lastSize, b.lastExt, tail);
    if ct {
      RunTrailers(b.trailers, b.crs, more);
    }
    assert Payload(b.chunks) + [] == Payload(b.chunks);
  }

  // ---- the other direction: whatever completes is an encoding ----

  /** The length of the longest prefix of s whose octets all satisfy p. */
  function Prefix(s: seq<byte>, p: byte -> bool): (n: nat)
    ensures n <= |s| && (forall k :: 0 <= k < n ==> p(s[k]))
    ensures n < |s| ==> !p(s[n])
    decreases |s|
  {
    if s == [] || !p(s[0]) then 0 else 1 + Prefix(s[1..], p)
  }

  predicate NotLf(b: byte) { b != LF }

  predicate IsCr(b: byte) { b == CR }

  lemma SkipPrefix(d: Decoder, input: seq<byte>, p: byte -> bool) returns (text: seq<byte>, rest: seq<byte>)
    requires forall b: byte :: p(b) ==> Step(d, b) == Next(d, false)
    ensures input == text + rest && (forall k :: 0 <= k < |text| ==> p(text[k]))
    ensures rest != [] ==> !p(rest[0])
    ensures Yields(d, input, [], d, rest)
  {
    var n := Prefix(input, p);
    text, rest := input[..n], input[n..];
    assert forall b <- text :: p(b);
    YieldsSilent(d, text, rest);
  }

  /** A decoder that completes, and that stays as it is on octets satisfying p, meets one that does not. */
  lemma Leaves(d: Decoder, input: seq<byte>, p: byte -> bool) returns (text: seq<byte>, last: byte, more: seq<byte>)
    requires forall b: byte :: p(b) ==> Step(d, b) == Next(d, false)
    requires Run(d, input).verdict == Complete
    ensures input == text + ([last] + more)
    ensures (forall k :: 0 <= k < |text| ==> p(text[k])) && !p(last)
    ensures Step(d, last).Done? || (Step(d, last).Next? && Run(Step(d, last).decoder, more).verdict == Complete)
  {
    var rest;
    text, rest := SkipPrefix(d, input, p);
    assert Run(d, rest).verdict == Complete;
    last, more := rest[0], rest[1..];
    assert rest == [last] + more;
  }

  /** Behind all the digits there are, or all there may be, a decoder that completes goes on to the extension. */
  lemma SizeEnds(d: Decoder, rest: seq<byte>)
    requires d.phase == ChunkSize && Run(d, rest).verdict == Complete
    requires d.hexCount == MAX_HEX || rest == [] || !IsHexDigit(rest[0])
    ensures d.hexCount > 0 && rest != [] && !IsHexDigit(rest[0])
    ensures Run(d.(hexCount := 0, phase := ChunkExt), rest).verdict == Complete
  {
    assert !Step(d, rest[0]).Fail?;
  }

  lemma SizeShape(ct: bool, input: seq<byte>) returns (size: seq<byte>, rest: seq<byte>)
    requires Run(ZeroFilled(ct), input).verdict == Complete
    ensures 1 <= |size| <= MAX_HEX && IsHex(size) && input == size + rest
    ensures rest != [] && !IsHexDigit(rest[0])
    ensures Run(InExt(ct, HexValue(size)), rest).verdict == Complete
  {
    var n := Prefix(input, IsHexDigit);
    var m := if n <= MAX_HEX then n else MAX_HEX;
    size, rest := input[..m], input[m..];
    assert input == size + rest;
    RunFirstDigits(ct, size, rest);
    SizeEnds(Decoder(HexValue(size), ct, m, ChunkSize), rest);
  }

  /** An input that decodes to the end begins with a chunk-size line. */
  lemma HeadShape(ct: bool, input: seq<byte>) returns (size: seq<byte>, ext: seq<byte>, more: seq<byte>)
    requires Run(ZeroFilled(ct), input).verdict == Complete
    ensures SizeOk(size, ext) && input == EncodeHead(size, ext, more)
    ensures HexValue(size) != 0 || ct ==> Run(HeadDone(ct, HexValue(size)), more).verdict == Complete
  {
    var rest, lf;
    size, rest := SizeShape(ct, input);
    ext, lf, more := Leaves(InExt(ct, HexValue(size)), rest, NotLf);
  }

  /** Behind the line of a non-empty chunk come its data, CRs and an LF. */
  lemma DataShape(ct: bool, n: nat, input: seq<byte>) returns (data: seq<byte>, crs: nat, more: seq<byte>)
    requires n > 0 && Run(HeadDone(ct, n), input).verdict == Complete
    ensures |data| == n && input == data + EndLine(crs, more)
    ensures Run(ZeroFilled(ct), more).verdict == Complete
  {
    var m := if n <= |input| then n else |input|;
    RunData(HeadDone(ct, n), input, m);
    data := input[..m];
    var text, lf;
    text, lf, more := Leaves(Decoder(0, ct, 0, ChunkCrlf), input[m..], IsCr);
    crs := |text|;
    assert text == Crs(crs);
  }

  lemma TrailerShape(input: seq<byte>) returns (t: Trailer, last: bool, more: seq<byte>)
    requires Run(HeadDone(true, 0), input).verdict == Complete
    ensures if last then input == EndLine(t.crs, more)
            else && TrailerOk(t) && input == EncodeTrailer(t, more)
                 && Run(HeadDone(true, 0), more).verdict == Complete
  {
    var text, b, rest := Leaves(HeadDone(true, 0), input, IsCr);
    var crs := |text|;
    assert text == Crs(crs);
    if b == LF {
      t, last, more := Trailer(crs, []), true, rest;
    } else {
      var line, lf, tail := Leaves(Decoder(0, true, 0, TrailersLineMiddle), rest, NotLf);
      t, last, more := Trailer(crs, [b] + line), false, tail;
      assert [b] + rest == t.text + ([LF] + more);
    }
  }

  lemma {:induction false} TrailersShape(input: seq<byte>) returns (ts: seq<Trailer>, crs: nat, more: seq<byte>)
    requires Run(HeadDone(true, 0), input).verdict == Complete
    ensures (forall t <- ts :: TrailerOk(t)) && input == EncodeTrailers(ts, crs, more)
    decreases |input|
  {
    var t, last, rest := TrailerShape(input);
    if last {
      ts, crs, more := [], t.crs, rest;
    } else {
      var ts';
      ts', crs, more := TrailersShape(rest);
      ts := [t] + ts';
      assert ts[1..] == ts';
    }
  }

  /** Whatever decodes to the end begins with the encoding of a body. */
  lemma {:induction false} Parse(ct: bool, input: seq<byte>) returns (b: Body, more: seq<byte>)
    requires Run(ZeroFilled(ct), input).verdict == Complete
    ensures BodyOk(b) && input == Encode(b, ct, more)
    decreases |input|
  {
    var size, ext, rest := HeadShape(ct, input);
    if HexValue(size) > 0 {
      var data, crs, tail := DataShape(ct, HexValue(size), rest);
      b, more := Parse(ct, tail);
      var chunks := [Chunk(size, ext, data, crs)] + b.chunks;
      assert chunks[1..] == b.chunks;
      b := b.(chunks := chunks);
    } else if ct {
      var ts, crs, tail := TrailersShape(rest);
      b, more := Body([], size, ext, ts, crs), tail;
    } else {
      b, more := Body([], size, ext, [], 0), rest;
    }
  }

  /** The decoder completes on exactly the inputs that begin with an encoded body. */
  lemma AcceptsExactlyBodies(ct: bool, input: seq<byte>)
    ensures Run(ZeroFilled(ct), input).verdict == Complete <==>
            exists b: Body, more :: BodyOk(b) && input == Encode(b, ct, more)
  {
    if Run(ZeroFilled(ct), input).verdict == Complete {
      var b, more := Parse(ct, input);
    }
    forall b: Body, more | BodyOk(b) && input == Encode(b, ct, more)
      ensures Run(ZeroFilled(ct), input).verdict == Complete
    {
      RoundTrip(b, ct, more);
    }
  }

  // ---- what is refused ----

  /** After one octet that puts nothing out. */
  lemma CompletesBehind(d: Decoder, b: byte, rest: seq<byte>)
    requires Step(d, b).Done? || (Step(d, b).Next? && Run(Step(d, b).decoder, rest).verdict == Complete)
    ensures Run(d, [b] + rest).verdict == Complete
  {
    assert ([b] + rest)[1..] == rest;
  }

  lemma CompletionOfSize(ct: bool) returns (more: seq<byte>)
    ensures Run(ZeroFilled(ct), more).verdict == Complete
  {
    var b := Body([], [48], [], [], 0);
    assert HexValue([48]) == HexValue([48][..0]) * 16;
    more := Encode(b, ct, []);
    RoundTrip(b, ct, []);
  }

  lemma CompletionOfData(d: Decoder) returns (more: seq<byte>)
    requires Valid(d) && (d.phase == ChunkData || d.phase == ChunkCrlf)
    ensures Run(d, more).verdict == Complete
  {
    var end := CompletionOfSize(d.consumeTrailer);
    if d.phase == ChunkCrlf {
      more := [LF] + end;
      CompletesBehind(d, LF, end);
    } else {
      var data: seq<byte> := seq(d.left, _ => SP);
      more := data + ([LF] + end);
      CompletesBehind(Drain(d, d.left), LF, end);
      RunData(d, more, d.left);
      assert more[d.left..] == [LF] + end;
    }
  }

  lemma CompletionOfTrailers(d: Decoder) returns (more: seq<byte>)
    requires d.phase == TrailersLineHead || d.phase == TrailersLineMiddle
    ensures Run(d, more).verdict == Complete
  {
    var head := d.(phase := TrailersLineHead);
    CompletesBehind(head, LF, []);
    if d.phase == TrailersLineHead {
      more := [LF] + [];
    } else {
      more := [LF] + ([LF] + []);
      CompletesBehind(d, LF, [LF] + []);
    }
  }

  /** Every decoder that can be reached can still be brought to the end. */
  lemma Completion(d: Decoder) returns (more: seq<byte>)
    requires Valid(d)
    ensures Run(d, more).verdict == Complete
  {
    match d.phase
    case ChunkData | ChunkCrlf => more := CompletionOfData(d);
    case TrailersLineHead | TrailersLineMiddle => more := CompletionOfTrailers(d);
    case ChunkSize | ChunkExt =>
      if d.phase == ChunkSize && d.hexCount == 0 {
        more := CompletionOfSize(d.consumeTrailer);
      } else {
        more := CompletionOfLine(d);
      }
  }

  /** In a chunk-size line, behind its digits, the LF may come at once. */
  lemma CompletionOfLine(d: Decoder) returns (more: seq<byte>)
    requires Valid(d) && (d.phase == ChunkExt || (d.phase == ChunkSize && d.hexCount > 0))
    ensures Run(d, more).verdict == Complete
  {
    StepValid(d, LF);
    var rest := [];
    match Step(d, LF) {
      case Next(d', _) =>
        if d'.phase == ChunkData {
          rest := CompletionOfData(d');
        } else {
          rest := CompletionOfTrailers(d');
        }
      case Done(_) =>
    }
    CompletesBehind(d, LF, rest);
    more := [LF] + rest;
  }

  /** The decoder refuses exactly the inputs that nothing sent behind them could bring to the end,
      and so at the first octet that makes them hopeless. */
  lemma RefusesExactlyHopeless(d: Decoder, input: seq<byte>)
    requires Valid(d)
    ensures Run(d, input).verdict == Failed <==>
            forall more: seq<byte> :: Run(d, input + more).verdict != Complete
  {
    var r := Run(d, input);
    if r.verdict == Failed {
      forall more: seq<byte>
        ensures Run(d, input + more).verdict != Complete
      {
        RunConcat(d, input, more);
      }
    } else {
      RunValid(d, input);
      var more := [];
      if r.verdict == Incomplete {
        more := Completion(r.decoder);
      }
      RunConcat(d, input, more);
      assert Run(d, input + more).verdict == Complete;
    }
  }

  /** So a body is refused exactly when it begins like no encoded body. */
  lemma RefusesExactlyNonBodies(ct: bool, input: seq<byte>)
    ensures Run(ZeroFilled(ct), input).verdict == Failed <==>
            !exists more: seq<byte>, b: Body, rest :: BodyOk(b) && input + more == Encode(b, ct, rest)
  {
    RefusesExactlyHopeless(ZeroFilled(ct), input);
    if Run(ZeroFilled(ct), input).verdict == Failed {
      forall more: seq<byte>, b: Body, rest | BodyOk(b) && input + more == Encode(b, ct, rest)
        ensures false
      {
        RoundTrip(b, ct, rest);
      }
    } else {
      var more :| Run(ZeroFilled(ct), input + more).verdict == Complete;
      var b, rest := Parse(ct, input + more);
      assert BodyOk(b) && input + more == Encode(b, ct, rest);
    }
  }

  // ---- every payload can be written ----

  function HexDigit(v: nat, upper: bool): (b: byte)
    requires v < 16
    ensures IsHexDigit(b) && DigitValue(b) == v
  {
    if v < 10 then 48 + v else if upper then 55 + v else 87 + v
  }

  function HexText(n: nat, upper: bool): (s: seq<byte>)
    ensures |s| >= 1 && IsHex(s) && HexValue(s) == n
  {
    if n < 16 then [HexDigit(n, upper)]
    else
      var s := HexText(n / 16, upper);
      assert (s + [HexDigit(n % 16, upper)])[..|s|] == s;
      s + [HexDigit(n % 16, upper)]
  }

  lemma {:induction false} HexTextLength(n: nat, upper: bool, k: nat)
    requires k >= 1 && n < Pow16(k)
    ensures |HexText(n, upper)| <= k
    decreases k
  {
    if n >= 16 {
      assert k >= 2 by {
        assert Pow16(1) == 16;
      }
      HexTextLength(n / 16, upper, k - 1);
    }
  }

  /** The body RFC 7230 writes for these pieces: no extensions, no trailers, CRLF line ends. */
  function Render(pieces: seq<seq<byte>>, upper: bool): Body {
    Body(seq(|pieces|, i requires 0 <= i < |pieces| => Chunk(HexText(|pieces[i]|, upper), [CR], pieces[i], 1)),
         [48], [CR], [], 1)
  }

  lemma {:induction false} PayloadOf(cs: seq<Chunk>, pieces: seq<seq<byte>>)
    requires |cs| == |pieces| && forall i :: 0 <= i < |cs| ==> cs[i].data == pieces[i]
    ensures Payload(cs) == Concat(pieces)
    decreases |cs|
  {
    if cs != [] {
      PayloadOf(cs[1..], pieces[1..]);
    }
  }

  /** Non-empty pieces of any size_t length, sent in chunks and decoded, come back as they were. */
  lemma SendAndDecode(pieces: seq<seq<byte>>, upper: bool, ct: bool, more: seq<byte>)
    requires forall p <- pieces :: 0 < |p| < SIZE_LIMIT
    ensures BodyOk(Render(pieces, upper))
    ensures var input := Encode(Render(pieces, upper), ct, more);
            && |more| < |input|
            && Run(ZeroFilled(ct), input) ==
               Outcome(Complete, HeadDone(ct, 0), Concat(pieces), |input| - |more|)
  {
    var b := Render(pieces, upper);
    Pow16Limit();
    forall c | c in b.chunks
      ensures ChunkOk(c)
    {
      HexTextLength(|c.data|, upper, MAX_HEX);
    }
    assert HexValue([48]) == HexValue([48][..0]) * 16;
    PayloadOf(b.chunks, pieces);
    RoundTrip(b, ct, more);
  }
}
