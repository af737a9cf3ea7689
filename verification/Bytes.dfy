/** Octets and the few named ones the HTTP code tests for. */
module Bytes {
  type byte = x: int | 0 <= x < 256

  const HT: byte := 9
  const LF: byte := 10
  const CR: byte := 13
  const SP: byte := 32
  const COLON: byte := 58
  const DEL: byte := 127

  /** A stretch of a buffer: the pointer and length pair the C code hands out. */
  datatype Span = Span(start: nat, len: nat)

  predicate SpanIn(s: Span, lo: nat, hi: nat) {
    lo <= s.start && s.start + s.len <= hi
  }

  /** The octets a span denotes. */
  function Text(b: seq<byte>, s: Span): (t: seq<byte>)
    requires s.start + s.len <= |b|
    ensures |t| == s.len
  {
    b[s.start..s.start + s.len]
  }
}
