/**
 The chunked transfer coding as a byte-at-a-time automaton. `Run` feeds one octet after
 another to `Step`; the bulk, in-place decoder of ChunkedDecoder.dfy is proved to agree with it.
 */
module ChunkedSpec {
  import opened Bytes

  const MAX_HEX: nat := 16                          // sizeof(size_t) * 2
  const SIZE_LIMIT: nat := 0x1_0000_0000_0000_0000  // a size_t is below this

  datatype Phase =
    | ChunkSize
    | ChunkExt
    | ChunkData
    | ChunkCrlf
    | TrailersLineHead
    | TrailersLineMiddle

  datatype Decoder = Decoder(left: nat, consumeTrailer: bool, hexCount: nat, phase: Phase)

  function ZeroFilled(consumeTrailer: bool): Decoder {
    Decoder(0, consumeTrailer, 0, ChunkSize)
  }

  /** 16 to the power n. */
  function Pow16(n: nat): (p: nat)
    ensures p >= 1
  {
    if n == 0 then 1 else 16 * Pow16(n - 1)
  }

  /** What every reachable decoder satisfies. */
  ghost predicate Valid(d: Decoder) {
    match d.phase
    case ChunkSize => d.hexCount <= MAX_HEX && d.left < Pow16(d.hexCount)
    case ChunkExt => d.hexCount == 0 && d.left < SIZE_LIMIT
    case ChunkData => d.hexCount == 0 && 0 < d.left < SIZE_LIMIT
    case ChunkCrlf => d.hexCount == 0 && d.left == 0
    case TrailersLineHead => d.hexCount == 0 && d.left == 0 && d.consumeTrailer
    case TrailersLineMiddle => d.hexCount == 0 && d.left == 0 && d.consumeTrailer
  }

  /** The digit an octet stands for, or -1. */
  function DecodeHex(ch: byte): (v: int)
    ensures -1 <= v < 16
  {
    if 48 <= ch <= 57 then ch - 48
    else if 65 <= ch <= 70 then ch - 65 + 10
    else if 97 <= ch <= 102 then ch - 97 + 10
    else -1
  }

  // ---- hex digits, as they are written ----

  const LOWER_DIGITS: seq<byte> := [48, 49, 50, 51, 52, 53, 54, 55, 56, 57, 97, 98, 99, 100, 101, 102]
  const UPPER_DIGITS: seq<byte> := [48, 49, 50, 51, 52, 53, 54, 55, 56, 57, 65, 66, 67, 68, 69, 70]

  predicate IsHexDigit(c: byte) {
    48 <= c <= 57 || 65 <= c <= 70 || 97 <= c <= 102
  }

  function DigitValue(c: byte): (v: nat)
    requires IsHexDigit(c)
    ensures v < 16 && (c == LOWER_DIGITS[v] || c == UPPER_DIGITS[v])
  {
    if c <= 57 then c - 48 else if c <= 70 then c - 55 else c - 87
  }

  /** An octet decodes to a digit exactly when it is one of the 22 that write it, and then to its value. */
  lemma DecodeHexIs(b: byte)
    ensures DecodeHex(b) == if IsHexDigit(b) then DigitValue(b) else -1
    ensures DecodeHex(b) == -1 <==> b !in LOWER_DIGITS && b !in UPPER_DIGITS
    ensures forall v :: 0 <= v < 16 ==> (DecodeHex(b) == v <==> b == LOWER_DIGITS[v] || b == UPPER_DIGITS[v])
  {
    if IsHexDigit(b) {
      assert b == LOWER_DIGITS[DigitValue(b)] || b == UPPER_DIGITS[DigitValue(b)];
    }
  }

  datatype StepResult =
    | Next(decoder: Decoder, emit: bool)  // octet consumed, and passed on as payload if emit
    | Done(decoder: Decoder)              // octet consumed, message over
    | Fail                                // octet refused, decoder unchanged

  function ExtStep(d: Decoder, b: byte): StepResult {
    if b != LF then Next(d, false)
    else if d.left != 0 then Next(d.(phase := ChunkData), false)
    else if d.consumeTrailer then Next(d.(phase := TrailersLineHead), false)
    else Done(d)
  }

  function Step(d: Decoder, b: byte): StepResult {
    match d.phase
    case ChunkSize =>
      var v := DecodeHex(b);
      if v == -1 then
        if d.hexCount == 0 then Fail else ExtStep(d.(hexCount := 0, phase := ChunkExt), b)
      else if d.hexCount == MAX_HEX then Fail
      else Next(d.(left := d.left * 16 + v, hexCount := d.hexCount + 1), false)
    case ChunkExt => ExtStep(d, b)
    case ChunkData =>
      if d.left <= 1 then Next(d.(left := 0, phase := ChunkCrlf), true)
      else Next(d.(left := d.left - 1), true)
    case ChunkCrlf =>
      if b == CR then Next(d, false)
      else if b == LF then Next(d.(phase := ChunkSize), false)
      else Fail
    case TrailersLineHead =>
      if b == CR then Next(d, false)
      else if b == LF then Done(d)
      else Next(d.(phase := TrailersLineMiddle), false)
    case TrailersLineMiddle =>
      Next(if b == LF then d.(phase := TrailersLineHead) else d, false)
  }

  datatype Verdict = Incomplete | Failed | Complete

  datatype Outcome = Outcome(verdict: Verdict, decoder: Decoder, output: seq<byte>, consumed: nat)

  function Run(d: Decoder, input: seq<byte>): (r: Outcome)
    ensures r.consumed <= |input|
    ensures |r.output| <= r.consumed
    ensures r.verdict == Incomplete ==> r.consumed == |input|
    decreases |input|
  {
    if input == [] then Outcome(Incomplete, d, [], 0)
    else
      match Step(d, input[0])
      case Fail => Outcome(Failed, d, [], 0)
      case Done(d') => Outcome(Complete, d', [], 1)
      case Next(d', emit) => After(if emit then [input[0]] else [], 1, Run(d', input[1..]))
  }

  /** The outcome of a run that had already produced `output` from `consumed` octets. */
  function After(output: seq<byte>, consumed: nat, r: Outcome): Outcome {
    Outcome(r.verdict, r.decoder, output + r.output, consumed + r.consumed)
  }

  lemma AfterTwice(o1: seq<byte>, c1: nat, o2: seq<byte>, c2: nat, r: Outcome)
    ensures After(o1, c1, After(o2, c2, r)) == After(o1 + o2, c1 + c2, r)
  {
    assert o1 + (o2 + r.output) == (o1 + o2) + r.output;
  }

  lemma AfterNothing(r: Outcome)
    ensures After([], 0, r) == r
  {
  }

  lemma Pow16Grows(m: nat, n: nat)
    requires m <= n
    ensures Pow16(m) <= Pow16(n)
    decreases n
  {
    if m < n {
      Pow16Grows(m, n - 1);
    }
  }

  lemma Pow16Limit()
    ensures Pow16(MAX_HEX) == SIZE_LIMIT
  {
    assert Pow16(4) == 0x1_0000;
    assert Pow16(8) == 0x1_0000_0000;
    assert Pow16(12) == 0x1_0000_0000_0000;
  }

  lemma SizeBound(left: nat, hexCount: nat)
    requires hexCount <= MAX_HEX && left < Pow16(hexCount)
    ensures left < SIZE_LIMIT
  {
    Pow16Limit();
    Pow16Grows(hexCount, MAX_HEX);
  }

  /** One more digit: the value stays below 16 to the number of digits, so the product fits a size_t. */
  lemma TakeDigit(d: Decoder, b: byte)
    requires Valid(d) && d.phase == ChunkSize && d.hexCount < MAX_HEX && DecodeHex(b) != -1
    ensures d.left * 16 + DecodeHex(b) < SIZE_LIMIT
    ensures Step(d, b) == Next(d.(left := d.left * 16 + DecodeHex(b), hexCount := d.hexCount + 1), false)
    ensures Valid(Step(d, b).decoder)
  {
    assert Pow16(d.hexCount + 1) == 16 * Pow16(d.hexCount);
    SizeBound(d.left * 16 + DecodeHex(b), d.hexCount + 1);
  }

  /** No octet leads out of the reachable decoders. */
  lemma StepValid(d: Decoder, b: byte)
    requires Valid(d)
    ensures match Step(d, b)
            case Next(d', _) => Valid(d') && d'.left < SIZE_LIMIT
            case Done(d') => Valid(d')
            case Fail => true
  {
    if d.phase == ChunkSize {
      if d.hexCount < MAX_HEX && DecodeHex(b) != -1 {
        TakeDigit(d, b);
      } else {
        EndSize(d, b);
      }
    }
  }

  /** Behind the digits the value goes on into the extension. */
  lemma EndSize(d: Decoder, b: byte)
    requires Valid(d) && d.phase == ChunkSize && !(d.hexCount < MAX_HEX && DecodeHex(b) != -1)
    ensures match Step(d, b)
            case Next(d', _) => Valid(d') && d'.left < SIZE_LIMIT
            case Done(d') => Valid(d')
            case Fail => true
  {
    SizeBound(d.left, d.hexCount);
  }

  lemma {:induction false} RunValid(d: Decoder, input: seq<byte>)
    requires Valid(d)
    ensures Valid(Run(d, input).decoder)
    decreases |input|
  {
    if input != [] {
      StepValid(d, input[0]);
      match Step(d, input[0])
      case Next(d', _) => RunValid(d', input[1..]);
      case _ =>
    }
  }

  /** A run over a concatenation is a run over the first part, continued if it was incomplete. */
  lemma {:induction false} RunConcat(d: Decoder, a: seq<byte>, b: seq<byte>)
    ensures var r := Run(d, a);
            Run(d, a + b) ==
            if r.verdict == Incomplete then After(r.output, |a|, Run(r.decoder, b)) else r
    decreases |a|
  {
    if a == [] {
      assert a + b == b;
      AfterNothing(Run(d, b));
    } else {
      assert (a + b)[1..] == a[1..] + b;
      match Step(d, a[0])
      case Next(d', emit) =>
        RunConcat(d', a[1..], b);
        var r := Run(d', a[1..]);
        AfterTwice(if emit then [a[0]] else [], 1, r.output, |a| - 1, Run(r.decoder, b));
      case _ =>
    }
  }

  /** Started on `input`, `d0` has become `d` after n octets, having produced `output`. */
  ghost predicate Reaches(d0: Decoder, input: seq<byte>, output: seq<byte>, n: nat, d: Decoder) {
    Valid(d) && n <= |input| && Run(d0, input) == After(output, n, Run(d, input[n..]))
  }

  lemma ReachesStart(d: Decoder, input: seq<byte>)
    requires Valid(d)
    ensures Reaches(d, input, [], 0, d)
  {
    assert input[0..] == input;
    AfterNothing(Run(d, input));
  }

  lemma ReachesNext(d0: Decoder, input: seq<byte>, output: seq<byte>, n: nat, d: Decoder)
    requires n < |input| && Reaches(d0, input, output, n, d) && Step(d, input[n]).Next?
    ensures var s := Step(d, input[n]);
            Reaches(d0, input, output + if s.emit then [input[n]] else [], n + 1, s.decoder)
  {
    StepValid(d, input[n]);
    var s := Step(d, input[n]);
    assert input[n..][1..] == input[n + 1..];
    AfterTwice(output, n, if s.emit then [input[n]] else [], 1, Run(s.decoder, input[n + 1..]));
  }

  lemma ReachesSilent(d0: Decoder, input: seq<byte>, output: seq<byte>, n: nat, d: Decoder)
    requires n < |input| && Reaches(d0, input, output, n, d)
    requires Step(d, input[n]).Next? && !Step(d, input[n]).emit
    ensures Reaches(d0, input, output, n + 1, Step(d, input[n]).decoder)
  {
    ReachesNext(d0, input, output, n, d);
    assert output + [] == output;
  }

  /** The first octet after the size digits is looked at twice: it ends the size, then belongs to the extension. */
  lemma ReachesExt(d0: Decoder, input: seq<byte>, output: seq<byte>, n: nat, d: Decoder)
    requires n < |input| && Reaches(d0, input, output, n, d)
    requires d.phase == ChunkSize && d.hexCount > 0 && DecodeHex(input[n]) == -1
    ensures Reaches(d0, input, output, n, d.(hexCount := 0, phase := ChunkExt))
  {
    Pow16Limit();
    Pow16Grows(d.hexCount, MAX_HEX);
  }

  lemma ReachesEnd(d0: Decoder, input: seq<byte>, output: seq<byte>, n: nat, d: Decoder)
    requires Reaches(d0, input, output, n, d)
    ensures n == |input| ==> Run(d0, input) == Outcome(Incomplete, d, output, n)
    ensures n < |input| && Step(d, input[n]).Fail? ==> Run(d0, input) == Outcome(Failed, d, output, n)
    ensures n < |input| && Step(d, input[n]).Done? ==>
              Run(d0, input) == Outcome(Complete, Step(d, input[n]).decoder, output, n + 1)
  {
  }

  /** A decoder in a chunk after n more of its octets. */
  function Drain(d: Decoder, n: nat): Decoder
    requires n <= d.left
  {
    if n == d.left then d.(left := 0, phase := ChunkCrlf) else d.(left := d.left - n)
  }

  /** Inside a chunk, octets are payload until the chunk is used up. */
  lemma {:induction false} RunData(d: Decoder, input: seq<byte>, n: nat)
    requires d.phase == ChunkData && 0 < d.left
    requires n <= |input| && n <= d.left
    ensures Run(d, input) == After(input[..n], n, Run(Drain(d, n), input[n..]))
    decreases n
  {
    if n == 0 {
      assert input[0..] == input;
      AfterNothing(Run(d, input));
    } else {
      var d' := Drain(d, 1);
      assert Step(d, input[0]) == Next(d', true);
      assert Run(d, input) == After([input[0]], 1, Run(d', input[1..]));
      if n == 1 {
        assert input[..1] == [input[0]];
      } else {
        RunData(d', input[1..], n - 1);
        assert input[1..][..n - 1] == input[1..n];
        assert input[1..][n - 1..] == input[n..];
        assert Drain(d', n - 1) == Drain(d, n);
        AfterTwice([input[0]], 1, input[1..n], n - 1, Run(Drain(d, n), input[n..]));
        assert [input[0]] + input[1..n] == input[..n];
      }
    }
  }

  lemma ReachesData(d0: Decoder, input: seq<byte>, output: seq<byte>, n: nat, d: Decoder, m: nat)
    requires Reaches(d0, input, output, n, d) && d.phase == ChunkData && 0 < d.left
    requires n + m <= |input| && m <= d.left
    ensures Reaches(d0, input, output + input[n..n + m], n + m, Drain(d, m))
  {
    RunData(d, input[n..], m);
    assert input[n..][..m] == input[n..n + m] && input[n..][m..] == input[n + m..];
    AfterTwice(output, n, input[n..n + m], m, Run(Drain(d, m), input[n + m..]));
  }

  /** Pieces fed one after the other, stopping at the first verdict that is not Incomplete. */
  function Feed(d: Decoder, pieces: seq<seq<byte>>): (r: Outcome)
    decreases |pieces|
  {
    if pieces == [] then Outcome(Incomplete, d, [], 0)
    else
      var r := Run(d, pieces[0]);
      if r.verdict == Incomplete then After(r.output, r.consumed, Feed(r.decoder, pieces[1..])) else r
  }

  function Concat(pieces: seq<seq<byte>>): seq<byte> {
    if pieces == [] then [] else pieces[0] + Concat(pieces[1..])
  }

  /** However the input is cut, the pieces give what the whole gives. */
  lemma {:induction false} SplitInvariance(d: Decoder, pieces: seq<seq<byte>>)
    ensures Feed(d, pieces) == Run(d, Concat(pieces))
    decreases |pieces|
  {
    if pieces != [] {
      var r := Run(d, pieces[0]);
      RunConcat(d, pieces[0], Concat(pieces[1..]));
      if r.verdict == Incomplete {
        SplitInvariance(r.decoder, pieces[1..]);
      }
    }
  }

  /** The number written by hex digits, most significant first. */
  function HexValue(digits: seq<byte>): (n: nat)
    requires IsHex(digits)
  {
    if digits == [] then 0
    else HexValue(digits[..|digits| - 1]) * 16 + DigitValue(digits[|digits| - 1])
  }

  ghost predicate IsHex(digits: seq<byte>) {
    forall k :: 0 <= k < |digits| ==> IsHexDigit(digits[k])
  }

  lemma {:induction false} HexValueBound(digits: seq<byte>)
    requires IsHex(digits)
    ensures HexValue(digits) < Pow16(|digits|)
    decreases |digits|
  {
    if digits != [] {
      HexValueBound(digits[..|digits| - 1]);
    }
  }

  /** A decoder that has read the digits of a size so far. */
  function Sized(ct: bool, digits: seq<byte>): Decoder
    requires IsHex(digits)
  {
    Decoder(HexValue(digits), ct, |digits|, ChunkSize)
  }

  lemma RunDigit(ct: bool, before: seq<byte>, b: byte, rest: seq<byte>)
    requires IsHex(before) && IsHexDigit(b) && |before| < MAX_HEX
    ensures IsHex(before + [b])
    ensures Run(Sized(ct, before), [b] + rest) == After([], 1, Run(Sized(ct, before + [b]), rest))
  {
    assert (before + [b])[..|before|] == before;
    DecodeHexIs(b);
    assert ([b] + rest)[1..] == rest;
  }

  /** Digits read in the size phase, over any number of calls, accumulate their numeric value,
      whatever digits came before. */
  lemma {:induction false} RunDigits(ct: bool, before: seq<byte>, digits: seq<byte>, all: seq<byte>, more: seq<byte>)
    requires all == before + digits && IsHex(before) && IsHex(all) && |all| <= MAX_HEX
    ensures Run(Sized(ct, before), digits + more) == After([], |digits|, Run(Sized(ct, all), more))
    decreases |digits|
  {
    if digits == [] {
      assert digits + more == more && before == all;
      AfterNothing(Run(Sized(ct, all), more));
    } else {
      var b, rest := digits[0], digits[1..] + more;
      assert IsHexDigit(b) by {
        assert all[|before|] == b;
      }
      assert all == before + [b] + digits[1..] && [b] + rest == digits + more;
      RunDigit(ct, before, b, rest);
      RunDigits(ct, before + [b], digits[1..], all, more);
      AfterMore(Run(Sized(ct, before), digits + more), Run(Sized(ct, before + [b]), rest), |digits| - 1,
                Run(Sized(ct, all), more));
    }
  }

  lemma AfterMore(r: Outcome, r1: Outcome, n: nat, r2: Outcome)
    requires r == After([], 1, r1) && r1 == After([], n, r2)
    ensures r == After([], n + 1, r2)
  {
    AfterTwice([], 1, [], n, r2);
  }

  lemma RunFirstDigits(consumeTrailer: bool, digits: seq<byte>, more: seq<byte>)
    requires IsHex(digits) && |digits| <= MAX_HEX
    ensures Run(ZeroFilled(consumeTrailer), digits + more) ==
            After([], |digits|, Run(Decoder(HexValue(digits), consumeTrailer, |digits|, ChunkSize), more))
  {
    assert [] + digits == digits;
    RunDigits(consumeTrailer, [], digits, digits, more);
  }
}
