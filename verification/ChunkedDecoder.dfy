/**
 The decoder as the C code has it: fields rewritten in place, whole stretches of the buffer
 skipped or moved at once. Every method is tied to the byte automaton of ChunkedSpec.dfy.
 */
module ChunkedDecoder {
  import opened Bytes
  import opened ChunkedSpec

  /** How a switch case ends: on to the next case, or out of the function. */
  datatype Exit = Continue | Stop(verdict: Verdict)

  /** Arithmetic on size_t wraps. */
  function SizeT(n: nat): (r: nat)
    ensures n < SIZE_LIMIT ==> r == n
    ensures r < SIZE_LIMIT
  {
    n % SIZE_LIMIT
  }

  /** Overlapping move inside a buffer; the source octets are all read first. */
  method MemMove(buf: array<byte>, dst: nat, src: nat, n: nat)
    requires dst + n <= buf.Length && src + n <= buf.Length
    modifies buf
    ensures buf[dst..dst + n] == old(buf[src..src + n])
    ensures forall k :: 0 <= k < buf.Length && !(dst <= k < dst + n) ==> buf[k] == old(buf[k])
  {
    forall k | 0 <= k < n {
      buf[dst + k] := buf[src + k];
    }
  }

  /** Moving n payload octets down to the end of the output leaves what follows them alone. */
  method KeepData(buf: array<byte>, bufsz: nat, dst: nat, src: nat, n: nat,
                  ghost input: seq<byte>, ghost output: seq<byte>)
    requires dst <= src && src + n <= bufsz == |input| <= buf.Length
    requires buf[..dst] == output
    requires forall k :: src <= k < bufsz ==> buf[k] == input[k]
    modifies buf
    ensures buf[..dst + n] == output + input[src..src + n]
    ensures forall k :: src + n <= k < bufsz ==> buf[k] == input[k]
    ensures forall k :: bufsz <= k < buf.Length ==> buf[k] == old(buf[k])
  {
    if dst != src {
      MemMove(buf, dst, src, n);
    }
    assert buf[..dst] == output;
    assert buf[dst..dst + n] == input[src..src + n];
    assert buf[..dst + n] == buf[..dst] + buf[dst..dst + n];
  }

  /** On exit what was not consumed is moved up to the payload. */
  method CloseGap(buf: array<byte>, bufsz: nat, dst: nat, src: nat)
    requires dst <= src <= bufsz <= buf.Length
    modifies buf
    ensures forall k :: 0 <= k < dst || bufsz <= k < buf.Length ==> buf[k] == old(buf[k])
    ensures buf[dst..dst + (bufsz - src)] == old(buf[src..bufsz])
  {
    if dst != src {
      MemMove(buf, dst, src, bufsz - src);
    }
  }

  class ChunkedDecoder {
    var bytesLeftInChunk: nat
    var consumeTrailer: bool
    var hexCount: nat
    var phase: Phase

    ghost function Abs(): Decoder
      reads this
    {
      Decoder(bytesLeftInChunk, consumeTrailer, hexCount, phase)
    }

    constructor (consumeTrailer: bool)
      ensures Abs() == ZeroFilled(consumeTrailer)
    {
      this.bytesLeftInChunk := 0;
      this.consumeTrailer := consumeTrailer;
      this.hexCount := 0;
      this.phase := ChunkSize;
    }

    /** In the middle of data: whatever octet comes next is payload. */
    method IsInData() returns (r: bool)
      ensures r <==> forall b: byte :: Step(Abs(), b).Next? && Step(Abs(), b).emit
    {
      r := phase == ChunkData;
      if !r {
        assert !(Step(Abs(), LF).Next? && Step(Abs(), LF).emit);
      }
    }

    /** The octets from src on are still those of the input, and the automaton is where we are. */
    ghost predicate Synced(buf: array<byte>, d0: Decoder, input: seq<byte>, output: seq<byte>, src: nat)
      reads this, buf
    {
      && src <= |input| <= buf.Length
      && (forall k :: src <= k < |input| ==> buf[k] == input[k])
      && Reaches(d0, input, output, src, Abs())
    }

    /** The verdict, the fields and the position are those the automaton stops with. */
    ghost predicate Stopped(d0: Decoder, input: seq<byte>, output: seq<byte>, src: nat, verdict: Verdict)
      reads this
    {
      Run(d0, input) == Outcome(verdict, Abs(), output, src)
    }

    method DecodeSize(buf: array<byte>, bufsz: nat, src0: nat,
                      ghost d0: Decoder, ghost input: seq<byte>, ghost output: seq<byte>)
      returns (src: nat, exit: Exit)
      requires phase == ChunkSize && bufsz == |input| && Synced(buf, d0, input, output, src0)
      modifies this
      ensures src0 <= src <= bufsz
      ensures exit.Continue? ==> phase == ChunkExt && Synced(buf, d0, input, output, src)
      ensures exit.Stop? ==> Stopped(d0, input, output, src, exit.verdict)
    {
      src := src0;
      while true
        invariant src0 <= src <= bufsz
        invariant phase == ChunkSize && Synced(buf, d0, input, output, src)
        decreases bufsz - src
      {
        if src == bufsz {
          ReachesEnd(d0, input, output, src, Abs());
          return src, Stop(Incomplete);
        }
        var v := DecodeHex(buf[src]);
        if v == -1 {
          if hexCount == 0 {
            ReachesEnd(d0, input, output, src, Abs());
            return src, Stop(Failed);
          }
          break;
        }
        if hexCount == MAX_HEX {
          ReachesEnd(d0, input, output, src, Abs());
          return src, Stop(Failed);
        }
        ghost var next := Step(Abs(), input[src]).decoder;
        TakeDigit(Abs(), input[src]);
        ReachesSilent(d0, input, output, src, Abs());
        bytesLeftInChunk := SizeT(bytesLeftInChunk * 16 + v);
        hexCount := hexCount + 1;
        assert Abs() == next;
        src := src + 1;
      }
      ReachesExt(d0, input, output, src, Abs());
      hexCount := 0;
      phase := ChunkExt;
      exit := Continue;
    }

    method DecodeExt(buf: array<byte>, bufsz: nat, src0: nat,
                     ghost d0: Decoder, ghost input: seq<byte>, ghost output: seq<byte>)
      returns (src: nat, exit: Exit)
      requires phase == ChunkExt && bufsz == |input| && Synced(buf, d0, input, output, src0)
      modifies this
      ensures src0 <= src <= bufsz
      ensures exit.Continue? ==>
                && phase in {ChunkData, TrailersLineHead} && src0 < src
                && Synced(buf, d0, input, output, src)
      ensures exit.Stop? ==> Stopped(d0, input, output, src, exit.verdict)
    {
      src := src0;
      while true
        invariant src0 <= src <= bufsz
        invariant phase == ChunkExt && Synced(buf, d0, input, output, src)
        decreases bufsz - src
      {
        ReachesEnd(d0, input, output, src, Abs());
        if src == bufsz {
          return src, Stop(Incomplete);
        }
        if buf[src] == LF {
          break;
        }
        ReachesSilent(d0, input, output, src, Abs());
        src := src + 1;
      }
      src := src + 1;
      ghost var next := Step(Abs(), LF);
      if bytesLeftInChunk == 0 {
        if !consumeTrailer {
          return src, Stop(Complete);
        }
        ReachesSilent(d0, input, output, src - 1, Abs());
        phase := TrailersLineHead;
      } else {
        ReachesSilent(d0, input, output, src - 1, Abs());
        phase := ChunkData;
      }
      assert Abs() == next.decoder;
      exit := Continue;
    }

    method DecodeData(buf: array<byte>, bufsz: nat, src0: nat, dst0: nat,
                      ghost d0: Decoder, ghost input: seq<byte>, ghost output0: seq<byte>)
      returns (src: nat, dst: nat, exit: Exit, ghost output: seq<byte>)
      requires phase == ChunkData && bufsz == |input| && Synced(buf, d0, input, output0, src0)
      requires dst0 <= src0 && buf[..dst0] == output0
      modifies this, buf
      ensures src0 <= src <= bufsz && dst <= src && buf[..dst] == output
      ensures forall k :: bufsz <= k < buf.Length ==> buf[k] == old(buf[k])
      ensures forall k :: src <= k < bufsz ==> buf[k] == input[k]
      ensures exit.Continue? ==>
                phase == ChunkCrlf && src0 < src && Synced(buf, d0, input, output, src)
      ensures exit.Stop? ==> Stopped(d0, input, output, src, exit.verdict)
    {
      var avail := bufsz - src0;
      var n := if avail < bytesLeftInChunk then avail else bytesLeftInChunk;
      KeepData(buf, bufsz, dst0, src0, n, input, output0);
      src, dst := src0 + n, dst0 + n;
      output := output0 + input[src0..src];
      ghost var next := Drain(Abs(), n);
      ReachesData(d0, input, output0, src0, Abs(), n);
      bytesLeftInChunk := bytesLeftInChunk - n;
      if bytesLeftInChunk != 0 {
        assert Abs() == next;
        ReachesEnd(d0, input, output, src, next);
        exit := Stop(Incomplete);
      } else {
        phase := ChunkCrlf;
        assert Abs() == next;
        exit := Continue;
      }
    }

    method DecodeCrlf(buf: array<byte>, bufsz: nat, src0: nat,
                      ghost d0: Decoder, ghost input: seq<byte>, ghost output: seq<byte>)
      returns (src: nat, exit: Exit)
      requires phase == ChunkCrlf && bufsz == |input| && Synced(buf, d0, input, output, src0)
      modifies this
      ensures src0 <= src <= bufsz
      ensures exit.Continue? ==> phase == ChunkSize && src0 < src && Synced(buf, d0, input, output, src)
      ensures exit.Stop? ==> Stopped(d0, input, output, src, exit.verdict)
    {
      src := src0;
      while true
        invariant src0 <= src <= bufsz
        invariant phase == ChunkCrlf && Synced(buf, d0, input, output, src)
        decreases bufsz - src
      {
        ReachesEnd(d0, input, output, src, Abs());
        if src == bufsz {
          return src, Stop(Incomplete);
        }
        if buf[src] != CR {
          break;
        }
        ReachesSilent(d0, input, output, src, Abs());
        src := src + 1;
      }
      if buf[src] != LF {
        return src, Stop(Failed);
      }
      ReachesSilent(d0, input, output, src, Abs());
      src := src + 1;
      phase := ChunkSize;
      exit := Continue;
    }

    method DecodeTrailerHead(buf: array<byte>, bufsz: nat, src0: nat,
                             ghost d0: Decoder, ghost input: seq<byte>, ghost output: seq<byte>)
      returns (src: nat, exit: Exit)
      requires phase == TrailersLineHead && bufsz == |input| && Synced(buf, d0, input, output, src0)
      modifies this
      ensures src0 <= src <= bufsz
      ensures exit.Continue? ==> phase == TrailersLineMiddle && src0 < src && Synced(buf, d0, input, output, src)
      ensures exit.Stop? ==> Stopped(d0, input, output, src, exit.verdict)
    {
      src := src0;
      while true
        invariant src0 <= src <= bufsz
        invariant phase == TrailersLineHead && Synced(buf, d0, input, output, src)
        decreases bufsz - src
      {
        ReachesEnd(d0, input, output, src, Abs());
        if src == bufsz {
          return src, Stop(Incomplete);
        }
        if buf[src] != CR {
          break;
        }
        ReachesSilent(d0, input, output, src, Abs());
        src := src + 1;
      }
      src := src + 1;
      if buf[src - 1] == LF {
        return src, Stop(Complete);
      }
      ReachesSilent(d0, input, output, src - 1, Abs());
      phase := TrailersLineMiddle;
      exit := Continue;
    }

    method DecodeTrailerMiddle(buf: array<byte>, bufsz: nat, src0: nat,
                               ghost d0: Decoder, ghost input: seq<byte>, ghost output: seq<byte>)
      returns (src: nat, exit: Exit)
      requires phase == TrailersLineMiddle && bufsz == |input| && Synced(buf, d0, input, output, src0)
      modifies this
      ensures src0 <= src <= bufsz
      ensures exit.Continue? ==> phase == TrailersLineHead && src0 < src && Synced(buf, d0, input, output, src)
      ensures exit.Stop? ==> Stopped(d0, input, output, src, exit.verdict)
    {
      src := src0;
      while true
        invariant src0 <= src <= bufsz
        invariant phase == TrailersLineMiddle && Synced(buf, d0, input, output, src)
        decreases bufsz - src
      {
        ReachesEnd(d0, input, output, src, Abs());
        if src == bufsz {
          return src, Stop(Incomplete);
        }
        ReachesSilent(d0, input, output, src, Abs());
        if buf[src] == LF {
          break;
        }
        src := src + 1;
      }
      src := src + 1;
      phase := TrailersLineHead;
      exit := Continue;
    }

    /** The switch: one case, and from the size on into the extension. */
    method DecodeCase(buf: array<byte>, bufsz: nat, src0: nat, dst0: nat,
                      ghost d0: Decoder, ghost input: seq<byte>, ghost output0: seq<byte>)
      returns (src: nat, dst: nat, exit: Exit, ghost output: seq<byte>)
      requires bufsz == |input| && Synced(buf, d0, input, output0, src0)
      requires dst0 <= src0 && buf[..dst0] == output0
      modifies this, buf
      ensures dst <= src <= bufsz && buf[..dst] == output
      ensures forall k :: bufsz <= k < buf.Length ==> buf[k] == old(buf[k])
      ensures forall k :: src <= k < bufsz ==> buf[k] == input[k]
      ensures exit.Continue? ==> src0 < src && Synced(buf, d0, input, output, src)
      ensures exit.Stop? ==> Stopped(d0, input, output, src, exit.verdict)
    {
      dst, output := dst0, output0;
      match phase
      case ChunkSize =>
        src, exit := DecodeSize(buf, bufsz, src0, d0, input, output);
        if exit.Continue? {
          src, exit := DecodeExt(buf, bufsz, src, d0, input, output);
        }
      case ChunkExt =>
        src, exit := DecodeExt(buf, bufsz, src0, d0, input, output);
      case ChunkData =>
        src, dst, exit, output := DecodeData(buf, bufsz, src0, dst, d0, input, output);
      case ChunkCrlf =>
        src, exit := DecodeCrlf(buf, bufsz, src0, d0, input, output);
      case TrailersLineHead =>
        src, exit := DecodeTrailerHead(buf, bufsz, src0, d0, input, output);
      case TrailersLineMiddle =>
        src, exit := DecodeTrailerMiddle(buf, bufsz, src0, d0, input, output);
    }

    /** The endless loop around the switch; falling through to the next case is the same as
        coming back to it. */
    method DecodeLoop(buf: array<byte>, bufsz: nat) returns (src: nat, dst: nat, verdict: Verdict)
      requires Valid(Abs()) && bufsz <= buf.Length
      modifies this, buf
      ensures dst <= src <= bufsz && Valid(Abs())
      ensures Run(old(Abs()), old(buf[..bufsz])) == Outcome(verdict, Abs(), buf[..dst], src)
      ensures forall k :: src <= k < buf.Length ==> buf[k] == old(buf[k])
    {
      ghost var d0, input, output := Abs(), buf[..bufsz], [];
      RunValid(d0, input);
      ReachesStart(d0, input);
      var exit := Continue;
      src, dst := 0, 0;
      while exit.Continue?
        invariant dst <= src <= bufsz && buf[..dst] == output
        invariant forall k :: bufsz <= k < buf.Length ==> buf[k] == old(buf[k])
        invariant forall k :: src <= k < bufsz ==> buf[k] == input[k]
        invariant exit.Continue? ==> Synced(buf, d0, input, output, src)
        invariant exit.Stop? ==> Stopped(d0, input, output, src, exit.verdict)
        decreases bufsz - src, exit.Continue?
      {
        src, dst, exit, output := DecodeCase(buf, bufsz, src, dst, d0, input, output);
      }
      verdict := exit.verdict;
    }

    /**
     The octets decoded are put at the front of the buffer, and what was not consumed follows
     them directly.
     */
    method Decode(buf: array<byte>, bufsz: nat) returns (ret: int, outsz: nat)
      requires Valid(Abs()) && bufsz <= buf.Length
      modifies this, buf
      ensures var r := Run(old(Abs()), old(buf[..bufsz]));
              && Abs() == r.decoder && Valid(Abs())
              && outsz == |r.output|
              && buf[..outsz] == r.output
              && buf[outsz..outsz + (bufsz - r.consumed)] == old(buf[r.consumed..bufsz])
              && ret == (match r.verdict
                         case Incomplete => -2
                         case Failed => -1
                         case Complete => bufsz - r.consumed)
      ensures forall k :: bufsz <= k < buf.Length ==> buf[k] == old(buf[k])
    {
      var src, dst, verdict := DecodeLoop(buf, bufsz);
      ghost var output := buf[..dst];
      assert buf[src..bufsz] == old(buf[src..bufsz]);
      CloseGap(buf, bufsz, dst, src);
      assert buf[..dst] == output;
      outsz := dst;
      ret := match verdict
        case Incomplete => -2
        case Failed => -1
        case Complete => bufsz - src;
    }
  }

  /** One call on a buffer holding just the piece. */
  method DecodePiece(decoder: ChunkedDecoder, piece: seq<byte>) returns (ret: int, output: seq<byte>)
    requires Valid(decoder.Abs())
    modifies decoder
    ensures var r := Run(old(decoder.Abs()), piece);
            && decoder.Abs() == r.decoder && Valid(decoder.Abs())
            && output == r.output
            && ret == (match r.verdict
                       case Incomplete => -2
                       case Failed => -1
                       case Complete => |piece| - r.consumed)
  {
    var buf := new byte[|piece|](i requires 0 <= i < |piece| => piece[i]);
    assert buf[..|piece|] == piece;
    var n;
    ret, n := decoder.Decode(buf, |piece|);
    output := buf[..n];
  }

  /**
   What an application does with a body that arrives in pieces: one call a piece until a
   verdict other than -2. Payload, verdict and final fields are those of the undivided input;
   the leftover count lacks only the octets that had not been fed yet.
   */
  method DecodePieces(decoder: ChunkedDecoder, pieces: seq<seq<byte>>)
    returns (ret: int, output: seq<byte>, fed: nat)
    requires Valid(decoder.Abs())
    modifies decoder
    ensures fed <= |pieces|
    ensures var whole := Run(old(decoder.Abs()), Concat(pieces));
            && output == whole.output
            && decoder.Abs() == whole.decoder
            && (whole.verdict == Incomplete <==> ret == -2)
            && (whole.verdict == Failed <==> ret == -1)
            && (whole.verdict == Complete ==>
                  ret == |Concat(pieces[..fed])| - whole.consumed
                  && ret + |Concat(pieces[fed..])| == |Concat(pieces)| - whole.consumed)
  {
    ret, output, fed := -2, [], 0;
    ghost var d0 := decoder.Abs();
    SplitInvariance(d0, pieces);
    assert pieces[0..] == pieces;
    ghost var consumed: nat := 0;
    AfterNothing(Feed(d0, pieces));
    while fed < |pieces| && ret == -2
      invariant fed <= |pieces|
      invariant Valid(decoder.Abs())
      invariant ret == -2 ==>
                  && consumed == |Concat(pieces[..fed])|
                  && Feed(d0, pieces) == After(output, consumed, Feed(decoder.Abs(), pieces[fed..]))
      invariant ret != -2 ==>
                  && ret >= -1
                  && Feed(d0, pieces) ==
                     Outcome(if ret == -1 then Failed else Complete, decoder.Abs(), output, consumed)
      invariant ret >= 0 ==> consumed + ret == |Concat(pieces[..fed])|
      decreases |pieces| - fed
    {
      var piece := pieces[fed];
      ghost var r := Run(decoder.Abs(), piece);
      ConcatSnoc(pieces, fed);
      assert pieces[fed..][0] == piece && pieces[fed..][1..] == pieces[fed + 1..];
      AfterTwice(output, consumed, r.output, r.consumed, Feed(r.decoder, pieces[fed + 1..]));
      var more;
      ret, more := DecodePiece(decoder, piece);
      output := output + more;
      consumed := consumed + r.consumed;
      fed := fed + 1;
    }
    ConcatSplit(pieces, fed);
  }

  lemma {:induction false} ConcatSplit(pieces: seq<seq<byte>>, k: nat)
    requires k <= |pieces|
    ensures |Concat(pieces[..k])| + |Concat(pieces[k..])| == |Concat(pieces)|
    decreases k
  {
    if k == 0 {
      assert pieces[0..] == pieces;
    } else {
      ConcatSplit(pieces[1..], k - 1);
      assert pieces[1..][..k - 1] == pieces[..k][1..];
      assert pieces[1..][k - 1..] == pieces[k..];
    }
  }

  lemma {:induction false} ConcatSnoc(pieces: seq<seq<byte>>, k: nat)
    requires k < |pieces|
    ensures |Concat(pieces[..k + 1])| == |Concat(pieces[..k])| + |pieces[k]|
  {
    ConcatSplit(pieces[..k + 1], k);
    assert pieces[..k + 1][..k] == pieces[..k];
    assert pieces[..k + 1][k..] == [pieces[k]];
    assert Concat([pieces[k]]) == pieces[k] + Concat([]);
  }
}
