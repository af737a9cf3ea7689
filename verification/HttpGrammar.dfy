/**
 The grammar of what is accepted, written as printing functions with all the liberties the
 parser takes: blanks around a value, any number of spaces in a start line, an empty line in
 front of a request, LF for CRLF, a status line without a reason. A buffer is accepted exactly
 if it begins with a printing of a well-formed message, and the spans spell its parts.
 */
module HttpGrammar {
  import opened Bytes
  import opened Wrappers
  import opened HttpSpec
  import opened HttpMessages

  // ---- printing, in front of what follows ----

  /** A field as it stands in a message: blanks on both sides of the value, CRLF or LF behind. */
  datatype FieldLineText = FieldLineText(field: Field, before: seq<byte>, after: seq<byte>, crlf: bool)

  /** The empty line in front (its line end), the spaces behind method and path, the line ends of
      the request line and of the blank line. */
  datatype RequestForm = RequestForm(
    leading: Option<bool>, verb: seq<byte>, spaces1: nat, path: seq<byte>, spaces2: nat,
    minorVersion: nat, crlf: bool, lines: seq<FieldLineText>, last: bool)

  datatype ResponseForm = ResponseForm(
    minorVersion: nat, spaces1: nat, status: nat, spaces2: nat, reason: seq<byte>,
    crlf: bool, lines: seq<FieldLineText>, last: bool)

  function LineEnd(crlf: bool): seq<byte> { if crlf then [13, 10] else [10] }

  function Repeat(n: nat): seq<byte> { seq(n, _ => 32) }

  function Ascii(s: string): seq<byte>
    requires forall k :: 0 <= k < |s| ==> s[k] < 128 as char
  {
    seq(|s|, k requires 0 <= k < |s| => s[k] as int)
  }

  function PrintDigit(d: nat): byte
    requires d < 10
  {
    '0' as int + d
  }

  function PrintVersion(minor: nat, more: seq<byte>): seq<byte>
    requires minor < 10
  {
    Ascii("HTTP/1.") + ([PrintDigit(minor)] + more)
  }

  function PrintStatus(status: nat, more: seq<byte>): seq<byte>
    requires status < 1000
  {
    [PrintDigit(status / 100), PrintDigit(status / 10 % 10), PrintDigit(status % 10)] + more
  }

  function PrintSpaces(n: nat, more: seq<byte>): seq<byte> { Repeat(n) + more }

  function PrintEol(crlf: bool, more: seq<byte>): seq<byte> { LineEnd(crlf) + more }

  /** A word and the spaces behind it. */
  function PrintWord(text: seq<byte>, n: nat, more: seq<byte>): seq<byte> { text + PrintSpaces(n, more) }

  function PrintValue(value: seq<byte>, after: seq<byte>, crlf: bool, more: seq<byte>): seq<byte> {
    value + (after + PrintEol(crlf, more))
  }

  function PrintName(name: seq<byte>, before: seq<byte>, more: seq<byte>): seq<byte> {
    name + ([':' as int] + (before + more))
  }

  function PrintLine(l: FieldLineText, more: seq<byte>): seq<byte> {
    var rest := PrintValue(l.field.value, l.after, l.crlf, more);
    if l.field.name.Some? then PrintName(l.field.name.value, l.before, rest) else rest
  }

  function PrintLines(ls: seq<FieldLineText>, more: seq<byte>): seq<byte> {
    if ls == [] then more else PrintLine(ls[0], PrintLines(ls[1..], more))
  }

  /** Field lines and the blank line. */
  function PrintBlock(ls: seq<FieldLineText>, last: bool, more: seq<byte>): seq<byte> {
    PrintLines(ls, PrintEol(last, more))
  }

  function PrintTarget(verb: seq<byte>, spaces1: nat, path: seq<byte>, spaces2: nat, more: seq<byte>): seq<byte> {
    PrintWord(verb, spaces1, PrintWord(path, spaces2, more))
  }

  function PrintLeading(leading: Option<bool>, more: seq<byte>): seq<byte> {
    if leading.Some? then PrintEol(leading.value, more) else more
  }

  function PrintVersionLine(minor: nat, crlf: bool, more: seq<byte>): seq<byte>
    requires minor < 10
  {
    PrintVersion(minor, PrintEol(crlf, more))
  }

  function PrintRequestHead(m: RequestForm, more: seq<byte>): seq<byte>
    requires m.minorVersion < 10
  {
    var version := PrintVersionLine(m.minorVersion, m.crlf, more);
    PrintLeading(m.leading, PrintTarget(m.verb, m.spaces1, m.path, m.spaces2, version))
  }

  function PrintRequest(m: RequestForm, more: seq<byte>): seq<byte>
    requires m.minorVersion < 10
  {
    PrintRequestHead(m, PrintBlock(m.lines, m.last, more))
  }

  function PrintReason(n: nat, reason: seq<byte>, crlf: bool, more: seq<byte>): seq<byte> {
    PrintSpaces(n, reason + PrintEol(crlf, more))
  }

  function PrintStatusLine(m: ResponseForm, more: seq<byte>): seq<byte>
    requires m.minorVersion < 10 && m.status < 1000
  {
    var reason := PrintReason(m.spaces2, m.reason, m.crlf, more);
    PrintVersion(m.minorVersion, PrintSpaces(m.spaces1, PrintStatus(m.status, reason)))
  }

  function PrintResponse(m: ResponseForm, more: seq<byte>): seq<byte>
    requires m.minorVersion < 10 && m.status < 1000
  {
    PrintStatusLine(m, PrintBlock(m.lines, m.last, more))
  }

  // ---- well-formed messages ----

  predicate AllBlank(t: seq<byte>) { forall k :: 0 <= k < |t| ==> IsSpaceOrTab(t[k]) }

  /** A continuation line starts with a blank: one of its value or, when that is empty, behind it. */
  ghost predicate LineOk(l: FieldLineText, continues: bool) {
    && FieldOk(l.field, continues) && AllBlank(l.before) && AllBlank(l.after)
    && (l.field.name.None? ==> l.before == [] && (l.field.value != [] || l.after != []))
  }

  ghost predicate LinesOk(ls: seq<FieldLineText>, continues: bool) {
    forall k :: 0 <= k < |ls| ==> LineOk(ls[k], continues || k > 0)
  }

  ghost predicate RequestHeadOk(m: RequestForm) {
    && IsToken(m.verb) && m.spaces1 > 0 && PathOk(m.path) && m.spaces2 > 0 && m.minorVersion < 10
  }

  ghost predicate RequestFormOk(m: RequestForm) {
    RequestHeadOk(m) && LinesOk(m.lines, false)
  }

  /** A reason has a space in front of it. */
  ghost predicate StatusLineOk(m: ResponseForm) {
    && m.minorVersion < 10 && m.spaces1 > 0 && m.status < 1000 && ReasonOk(m.reason)
    && (m.reason != [] ==> m.spaces2 > 0)
  }

  ghost predicate ResponseFormOk(m: ResponseForm) {
    StatusLineOk(m) && LinesOk(m.lines, false)
  }

  function FieldsIn(ls: seq<FieldLineText>): (fs: seq<Field>)
    ensures |fs| == |ls| && forall k :: 0 <= k < |ls| ==> fs[k] == ls[k].field
  {
    seq(|ls|, k requires 0 <= k < |ls| => ls[k].field)
  }

  function RequestParts(m: RequestForm): RequestText {
    RequestText(m.verb, m.path, m.minorVersion, FieldsIn(m.lines))
  }

  function ResponseParts(m: ResponseForm): ResponseText {
    ResponseText(m.minorVersion, m.status, m.reason, FieldsIn(m.lines))
  }

  // ---- printed pieces are read ----

  /** What stands from i on. */
  function Rest(b: seq<byte>, i: nat): seq<byte>
    requires i <= |b|
  {
    b[i..]
  }

  lemma Whole(b: seq<byte>)
    ensures Rest(b, 0) == b
  {
  }

  /** From i on the buffer reads text. */
  ghost predicate Reads(b: seq<byte>, i: nat, text: seq<byte>) {
    i <= |b| && Rest(b, i) == text
  }

  lemma Advance(b: seq<byte>, i: nat, text: seq<byte>, rest: seq<byte>)
    requires Reads(b, i, text + rest)
    ensures Reads(b, i + |text|, rest) && b[i..i + |text|] == text
    ensures forall k :: i <= k < i + |text| ==> b[k] == text[k - i]
    ensures rest != [] ==> i + |text| < |b| && b[i + |text|] == rest[0]
  {
    assert b[i + |text|..] == b[i..][|text|..];
    assert b[i..i + |text|] == b[i..][..|text|];
    assert forall k :: i <= k < i + |text| ==> b[k] == b[i..][k - i];
  }

  lemma FindReads(b: seq<byte>, i: nat, stop: byte -> bool, text: seq<byte>, rest: seq<byte>)
    requires Reads(b, i, text + rest) && rest != [] && stop(rest[0])
    requires forall k :: 0 <= k < |text| ==> !stop(text[k])
    ensures Find(b, i, stop) == i + |text| < |b| && Reads(b, i + |text|, rest) && b[i + |text|] == rest[0]
    ensures Text(b, Span(i, |text|)) == text
  {
    Advance(b, i, text, rest);
    FindIs(b, i, stop, i + |text|);
  }

  lemma SpacesRead(b: seq<byte>, i: nat, n: nat, rest: seq<byte>)
    requires n > 0 && Reads(b, i, PrintSpaces(n, rest)) && rest != [] && rest[0] != SP
    ensures i < |b| && b[i] == SP && Spaces(b, i) == Ok((), i + n) && Reads(b, i + n, rest)
  {
    Advance(b, i, Repeat(n), rest);
    FindIs(b, i + 1, NotSpace, i + n);
  }

  lemma EolReads(b: seq<byte>, i: nat, crlf: bool, rest: seq<byte>)
    requires Reads(b, i, PrintEol(crlf, rest))
    ensures i < |b| && StartsEol(b[i])
    ensures var r := Eol(b, i); r.Ok? && Reads(b, r.next, rest)
  {
    Advance(b, i, LineEnd(crlf), rest);
  }

  lemma EolStarts(crlf: bool, rest: seq<byte>)
    ensures var t := PrintEol(crlf, rest);
            t != [] && StartsEol(t[0]) && EndsLine(t[0]) && t[0] != SP && !IsSpaceOrTab(t[0])
  {
  }

  lemma LineReads(b: seq<byte>, i: nat, text: seq<byte>, crlf: bool, rest: seq<byte>)
    requires Reads(b, i, text + PrintEol(crlf, rest)) && forall k :: 0 <= k < |text| ==> IsFieldOctet(text[k])
    ensures var r := ToEol(b, i);
            r.Ok? && r.value == Span(i, |text|) && Text(b, r.value) == text && Reads(b, r.next, rest)
  {
    EolStarts(crlf, rest);
    FindReads(b, i, EndsLine, text, PrintEol(crlf, rest));
    EolReads(b, i + |text|, crlf, rest);
  }

  lemma TextAt(b: seq<byte>, s: Span, k: nat)
    requires s.start + s.len <= |b| && k < s.len
    ensures b[s.start + k] == Text(b, s)[k]
  {
  }

  lemma TrimReads(b: seq<byte>, i: nat, value: nat, after: nat)
    requires i + value + after <= |b|
    requires IsValue(Text(b, Span(i, value))) && AllBlank(Text(b, Span(i + value, after)))
    ensures TrimEnd(b, Span(i, value + after)) == Span(i, value)
  {
    hide Text;
    if value > 0 {
      TextAt(b, Span(i, value), value - 1);
    }
    BlankText(b, Span(i + value, after));
    assert TrimEnd(b, Span(i, value + after)).len == value;
  }

  lemma BlankText(b: seq<byte>, s: Span)
    requires s.start + s.len <= |b| && AllBlank(Text(b, s))
    ensures forall k :: s.start <= k < s.start + s.len ==> IsSpaceOrTab(b[k])
  {
    forall k | s.start <= k < s.start + s.len
      ensures IsSpaceOrTab(b[k])
    {
      TextAt(b, s, k - s.start);
    }
  }

  /** The line from i on is value, blanks behind it aside, and rest follows. */
  ghost predicate ValueIs(b: seq<byte>, i: nat, value: seq<byte>, rest: seq<byte>) {
    i <= |b| && var r := ToEol(b, i);
    r.Ok? && Text(b, TrimEnd(b, r.value)) == value && Reads(b, r.next, rest)
  }

  lemma TrimmedReads(b: seq<byte>, i: nat, value: seq<byte>, after: seq<byte>, rest: seq<byte>)
    requires IsValue(value) && AllBlank(after) && Reads(b, i, value + (after + rest))
    ensures i + |value| + |after| <= |b|
    ensures var s := TrimEnd(b, Span(i, |value| + |after|)); s.start + s.len <= |b| && Text(b, s) == value
  {
    hide TrimEnd, IsValue, Rest, Text;
    var j := i + |value|;
    assert Reads(b, j, after + rest) && Text(b, Span(i, |value|)) == value by {
      TextReads(b, i, value, after + rest);
    }
    assert j + |after| <= |b| && Text(b, Span(j, |after|)) == after by {
      TextReads(b, j, after, rest);
    }
    TrimReads(b, i, |value|, |after|);
  }

  lemma TextReads(b: seq<byte>, i: nat, text: seq<byte>, rest: seq<byte>)
    requires Reads(b, i, text + rest)
    ensures Reads(b, i + |text|, rest) && Text(b, Span(i, |text|)) == text
  {
    Advance(b, i, text, rest);
  }

  lemma ValueReads(b: seq<byte>, i: nat, value: seq<byte>, after: seq<byte>, crlf: bool, rest: seq<byte>)
    requires IsValue(value) && AllBlank(after) && Reads(b, i, PrintValue(value, after, crlf, rest))
    ensures ValueIs(b, i, value, rest)
  {
    hide ToEol, TrimEnd, PrintEol, Rest, Text;
    TrimmedReads(b, i, value, after, PrintEol(crlf, rest));
    assert PrintValue(value, after, crlf, rest) == (value + after) + PrintEol(crlf, rest);
    LineReads(b, i, value + after, crlf, rest);
  }

  /** The field line at i is read as field f, and rest follows. */
  ghost predicate LineIs(b: seq<byte>, i: nat, continues: bool, f: Field, rest: seq<byte>) {
    && i < |b| && !StartsEol(b[i])
    && var r := FieldLine(b, i, continues);
       r.Ok? && Reads(b, r.next, rest) && HeaderIn(b, r.value) && FieldOf(b, r.value) == f
  }

  lemma NameEnds(b: seq<byte>, i: nat, name: seq<byte>, rest: seq<byte>)
    requires IsToken(name) && Reads(b, i, name + ([':' as int] + rest))
    ensures i + |name| < |b| && !StartsEol(b[i]) && !IsBlank(b[i])
    ensures Token(b, i, EndsName, COLON) == Ok(Span(i, |name|), i + |name|)
    ensures Text(b, Span(i, |name|)) == name && Reads(b, i + |name| + 1, rest)
  {
    FindReads(b, i, EndsName, name, [':' as int] + rest);
    assert b[i] == Text(b, Span(i, |name|))[0] == name[0];
    Advance(b, i + |name|, [':' as int], rest);
  }

  /** The line at i has this name, and rest follows behind the blanks. */
  ghost predicate NameIs(b: seq<byte>, i: nat, continues: bool, name: seq<byte>, rest: seq<byte>) {
    && i < |b| && !StartsEol(b[i])
    && var r := FieldName(b, i, continues);
       r.Ok? && r.value.Some? && Text(b, r.value.value) == name && Reads(b, r.next, rest)
  }

  lemma NameReads(b: seq<byte>, i: nat, continues: bool, name: seq<byte>, blanks: seq<byte>, rest: seq<byte>)
    requires IsToken(name) && AllBlank(blanks) && Reads(b, i, PrintName(name, blanks, rest))
    requires rest != [] && !IsSpaceOrTab(rest[0])
    ensures NameIs(b, i, continues, name, rest)
  {
    NameEnds(b, i, name, blanks + rest);
    hide Token, Find, Text, Rest, IsToken;
    var k := i + |name| + 1;
    assert Find(b, k, NotBlank) == k + |blanks| < |b| && Reads(b, k + |blanks|, rest) by {
      FindReads(b, k, NotBlank, blanks, rest);
    }
    hide AllBlank;
  }

  lemma ValueStarts(l: FieldLineText, continues: bool, rest: seq<byte>)
    requires LineOk(l, continues) && l.field.name.Some? && (l.field.value == [] ==> l.after == [])
    ensures var t := PrintValue(l.field.value, l.after, l.crlf, rest); t != [] && !IsSpaceOrTab(t[0])
  {
    var t := PrintValue(l.field.value, l.after, l.crlf, rest);
    if l.field.value == [] {
      EolStarts(l.crlf, rest);
      assert t == PrintEol(l.crlf, rest);
    } else {
      assert t[0] == l.field.value[0];
    }
  }

  lemma NamedReads(b: seq<byte>, i: nat, l: FieldLineText, continues: bool, rest: seq<byte>)
    requires LineOk(l, continues) && l.field.name.Some? && (l.field.value == [] ==> l.after == [])
    requires Reads(b, i, PrintLine(l, rest))
    ensures LineIs(b, i, continues, l.field, rest)
  {
    ValueStarts(l, continues, rest);
    hide PrintName, PrintValue, NameIs, LineIs;
    NameReads(b, i, continues, l.field.name.value, l.before, PrintValue(l.field.value, l.after, l.crlf, rest));
    NamedJoins(b, i, l, continues, rest);
  }

  lemma NamedJoins(b: seq<byte>, i: nat, l: FieldLineText, continues: bool, rest: seq<byte>)
    requires IsValue(l.field.value) && AllBlank(l.after) && l.field.name.Some?
    requires NameIs(b, i, continues, l.field.name.value, PrintValue(l.field.value, l.after, l.crlf, rest))
    ensures LineIs(b, i, continues, l.field, rest)
  {
    hide PrintValue, Text, ToEol, TrimEnd, Token, Find, Rest;
    ValueReads(b, FieldName(b, i, continues).next, l.field.value, l.after, l.crlf, rest);
  }

  /** Blanks of a line without a value all count as in front of it. */
  lemma BlanksInFront(l: FieldLineText, rest: seq<byte>)
    requires l.field.value == [] && l.field.name.Some?
    ensures PrintLine(l.(before := l.before + l.after, after := []), rest) == PrintLine(l, rest)
  {
    var line := PrintEol(l.crlf, rest);
    assert [] + (l.after + line) == l.after + line && [] + ([] + line) == line;
    assert l.before + (l.after + line) == (l.before + l.after) + line;
  }

  /** A continuation line starts with its value or, when that is empty, with the blanks behind it. */
  lemma ContinuationStarts(b: seq<byte>, i: nat, l: FieldLineText, rest: seq<byte>)
    requires LineOk(l, true) && l.field.name.None? && Reads(b, i, PrintLine(l, rest))
    ensures i < |b| && IsSpaceOrTab(b[i])
  {
    var text := l.field.value + l.after;
    assert PrintLine(l, rest) == text + PrintEol(l.crlf, rest);
    assert b[i] == Rest(b, i)[0] == text[0];
  }

  lemma ContinuationReads(b: seq<byte>, i: nat, l: FieldLineText, rest: seq<byte>)
    requires LineOk(l, true) && l.field.name.None? && Reads(b, i, PrintLine(l, rest))
    ensures LineIs(b, i, true, l.field, rest)
  {
    hide LineOk, PrintValue, Text, ToEol, TrimEnd, Rest, ValueIs;
    assert i < |b| && IsSpaceOrTab(b[i]) by {
      ContinuationStarts(b, i, l, rest);
    }
    ContinuationValue(b, i, l, rest);
    ContinuationJoins(b, i, l.field, rest);
  }

  lemma ContinuationValue(b: seq<byte>, i: nat, l: FieldLineText, rest: seq<byte>)
    requires LineOk(l, true) && l.field.name.None? && Reads(b, i, PrintLine(l, rest))
    ensures ValueIs(b, i, l.field.value, rest)
  {
    ValueReads(b, i, l.field.value, l.after, l.crlf, rest);
  }

  lemma ContinuationJoins(b: seq<byte>, i: nat, f: Field, rest: seq<byte>)
    requires i < |b| && IsSpaceOrTab(b[i]) && f.name.None? && ValueIs(b, i, f.value, rest)
    ensures LineIs(b, i, true, f, rest)
  {
    hide ToEol, TrimEnd, Text, Rest;
  }

  lemma FieldLineReads(b: seq<byte>, i: nat, l: FieldLineText, continues: bool, rest: seq<byte>)
    requires LineOk(l, continues) && Reads(b, i, PrintLine(l, rest))
    ensures LineIs(b, i, continues, l.field, rest)
  {
    hide LineIs, PrintLine, Rest;
    if l.field.name.None? {
      ContinuationReads(b, i, l, rest);
    } else if l.field.value == [] {
      BlanksInFront(l, rest);
      NamedReads(b, i, l.(before := l.before + l.after, after := []), continues, rest);
    } else {
      NamedReads(b, i, l, continues, rest);
    }
  }

  /** The headers hs spell the field lines ls. */
  ghost predicate HeadersSpell(b: seq<byte>, hs: seq<Header>, ls: seq<FieldLineText>) {
    && |hs| == |ls|
    && forall k :: 0 <= k < |ls| ==> HeaderIn(b, hs[k]) && FieldOf(b, hs[k]) == ls[k].field
  }

  /** What is said of a block that begins with ls is what is said of the rest behind them. */
  ghost predicate Behind(b: seq<byte>, r: Parsed<seq<Header>>, ls: seq<FieldLineText>, tail: Parsed<seq<Header>>) {
    if tail.Ok? then
      && r.Ok? && r.next == tail.next && |ls| <= |r.value|
      && HeadersSpell(b, r.value[..|ls|], ls) && r.value[|ls|..] == tail.value
    else
      r == tail
  }

  lemma {:induction false} LinesRead(
    b: seq<byte>, i: nat, n: nat, max: nat, ls: seq<FieldLineText>, rest: seq<byte>)
    requires LinesOk(ls, n != 0) && n + |ls| <= max
    requires Reads(b, i, PrintLines(ls, rest))
    ensures |rest| <= |b| && Reads(b, |b| - |rest|, rest)
    ensures Behind(b, Headers(b, i, n, max), ls, Headers(b, |b| - |rest|, n + |ls|, max))
    decreases |ls|
  {
    hide FieldLine, Headers, LineOk, PrintLine, Behind, FieldOf, Text, PrintBlock;
    if ls == [] {
      BehindNothing(b, Headers(b, i, n, max));
      assert i == |b| - |rest|;
    } else {
      FieldLineReads(b, i, ls[0], n != 0, PrintLines(ls[1..], rest));
      var line := FieldLine(b, i, n != 0);
      LinesRead(b, line.next, n + 1, max, ls[1..], rest);
      BehindCons(b, i, n, max, ls, Headers(b, |b| - |rest|, n + |ls|, max));
    }
  }

  lemma BehindNothing(b: seq<byte>, r: Parsed<seq<Header>>)
    ensures Behind(b, r, [], r)
  {
  }

  lemma BehindCons(b: seq<byte>, i: nat, n: nat, max: nat, ls: seq<FieldLineText>, tail: Parsed<seq<Header>>)
    requires ls != [] && i < |b| && n < max && !StartsEol(b[i])
    requires var line := FieldLine(b, i, n != 0);
             && line.Ok? && HeaderIn(b, line.value) && FieldOf(b, line.value) == ls[0].field
             && Behind(b, Headers(b, line.next, n + 1, max), ls[1..], tail)
    ensures Behind(b, Headers(b, i, n, max), ls, tail)
  {
    hide Behind, FieldOf, HeaderIn, FieldLine;
    var line := FieldLine(b, i, n != 0);
    InFront(b, line.value, Headers(b, line.next, n + 1, max), ls, tail);
  }

  /** A header in front of what was read. */
  lemma InFront(b: seq<byte>, h: Header, rest: Parsed<seq<Header>>, ls: seq<FieldLineText>, tail: Parsed<seq<Header>>)
    requires ls != [] && HeaderIn(b, h) && FieldOf(b, h) == ls[0].field && Behind(b, rest, ls[1..], tail)
    ensures Behind(b, if rest.Ok? then Ok([h] + rest.value, rest.next) else rest, ls, tail)
  {
    hide HeadersSpell, FieldOf, HeaderIn;
    if tail.Ok? {
      SpellCons(b, h, rest.value[..|ls| - 1], ls);
      CutCons(h, rest.value, |ls| - 1);
    }
  }

  lemma CutCons(h: Header, hs: seq<Header>, n: nat)
    requires n <= |hs|
    ensures ([h] + hs)[..n + 1] == [h] + hs[..n] && ([h] + hs)[n + 1..] == hs[n..]
  {
  }

  lemma SpellCons(b: seq<byte>, h: Header, hs: seq<Header>, ls: seq<FieldLineText>)
    requires ls != [] && HeaderIn(b, h) && FieldOf(b, h) == ls[0].field && HeadersSpell(b, hs, ls[1..])
    ensures HeadersSpell(b, [h] + hs, ls)
  {
  }

  /** A block at i is read as ls, and rest follows. */
  lemma BlockReads(b: seq<byte>, i: nat, max: nat, ls: seq<FieldLineText>, last: bool, rest: seq<byte>)
    requires LinesOk(ls, false) && |ls| <= max && Reads(b, i, PrintBlock(ls, last, rest))
    ensures var r := Headers(b, i, 0, max);
            r.Ok? && r.next == |b| - |rest| && HeadersSpell(b, r.value, ls)
  {
    LinesRead(b, i, 0, max, ls, PrintEol(last, rest));
    var j := |b| - |PrintEol(last, rest)|;
    assert Headers(b, j, |ls|, max) == Ok([], |b| - |rest|) by {
      EolReads(b, j, last, rest);
    }
    hide Headers, LinesOk, PrintLines, HeadersSpell;
    var r := Headers(b, i, 0, max);
    assert r.value[..|ls|] == r.value;
  }

  lemma LeadingReads(b: seq<byte>, leading: Option<bool>, rest: seq<byte>)
    requires b == PrintLeading(leading, rest) && rest != [] && !StartsEol(rest[0])
    ensures var r := LeadingEol(b);
            r.Ok? && Reads(b, r.next, rest)
  {
    Whole(b);
    if leading.Some? {
      EolReads(b, 0, leading.value, rest);
    }
  }

  lemma WordReads(b: seq<byte>, i: nat, stop: byte -> bool, text: seq<byte>, n: nat, rest: seq<byte>)
    requires n > 0 && Reads(b, i, PrintWord(text, n, rest)) && stop(SP) && rest != [] && rest[0] != SP
    requires forall k :: 0 <= k < |text| ==> !stop(text[k])
    ensures Token(b, i, stop, SP) == Ok(Span(i, |text|), i + |text|) && Text(b, Span(i, |text|)) == text
    ensures i + |text| < |b| && Spaces(b, i + |text|) == Ok((), i + |text| + n)
    ensures Reads(b, i + |text| + n, rest)
  {
    FindReads(b, i, stop, text, PrintSpaces(n, rest));
    SpacesRead(b, i + |text|, n, rest);
  }

  lemma PathStarts(path: seq<byte>, n: nat, rest: seq<byte>)
    requires PathOk(path)
    ensures var t := PrintWord(path, n, rest); t != [] && t[0] != SP
  {
    assert PrintWord(path, n, rest)[0] == path[0];
  }

  lemma VerbReads(b: seq<byte>, i: nat, verb: seq<byte>, n: nat, rest: seq<byte>)
    requires IsToken(verb) && n > 0 && Reads(b, i, PrintWord(verb, n, rest)) && rest != [] && rest[0] != SP
    ensures Token(b, i, EndsVerb, SP) == Ok(Span(i, |verb|), i + |verb|) && Text(b, Span(i, |verb|)) == verb
    ensures i + |verb| < |b| && Spaces(b, i + |verb|) == Ok((), i + |verb| + n)
    ensures Reads(b, i + |verb| + n, rest)
  {
    WordReads(b, i, EndsVerb, verb, n, rest);
  }

  lemma PathReads(b: seq<byte>, i: nat, path: seq<byte>, n: nat, rest: seq<byte>)
    requires PathOk(path) && n > 0 && Reads(b, i, PrintWord(path, n, rest)) && rest != [] && rest[0] != SP
    ensures Token(b, i, EndsPath, SP) == Ok(Span(i, |path|), i + |path|) && Text(b, Span(i, |path|)) == path
    ensures |path| > 0 && i + |path| < |b| && Spaces(b, i + |path|) == Ok((), i + |path| + n)
    ensures Reads(b, i + |path| + n, rest)
  {
    WordReads(b, i, EndsPath, path, n, rest);
  }

  lemma TargetReads(b: seq<byte>, i: nat, m: RequestForm, rest: seq<byte>)
    requires RequestHeadOk(m) && rest != [] && rest[0] != SP
    requires Reads(b, i, PrintTarget(m.verb, m.spaces1, m.path, m.spaces2, rest))
    ensures var r := Target(b, i);
            && r.Ok? && Reads(b, r.next, rest)
            && Text(b, r.value.0) == m.verb && Text(b, r.value.1) == m.path
  {
    hide Token, Spaces, PrintWord, Rest, Text, Target, PathOk;
    var path := PrintWord(m.path, m.spaces2, rest);
    var k := i + |m.verb| + m.spaces1;
    PathStarts(m.path, m.spaces2, rest);
    VerbReads(b, i, m.verb, m.spaces1, path);
    PathReads(b, k, m.path, m.spaces2, rest);
    TargetSteps(b, i, |m.verb|, k, |m.path|, k + |m.path| + m.spaces2);
  }

  lemma TargetSteps(b: seq<byte>, i: nat, verb: nat, k: nat, path: nat, n: nat)
    requires verb > 0 && path > 0 && i + verb < |b| && k + path < |b|
    requires Token(b, i, EndsVerb, SP) == Ok(Span(i, verb), i + verb) && Spaces(b, i + verb) == Ok((), k)
    requires Token(b, k, EndsPath, SP) == Ok(Span(k, path), k + path) && Spaces(b, k + path) == Ok((), n)
    ensures Target(b, i) == Ok((Span(i, verb), Span(k, path)), n)
  {
    hide Token, Spaces;
  }

  lemma VersionReads(b: seq<byte>, i: nat, minor: nat, rest: seq<byte>)
    requires minor < 10 && Reads(b, i, PrintVersion(minor, rest)) && rest != []
    ensures Version(b, i) == Ok(minor, i + 8) && Reads(b, i + 8, rest) && b[i + 8] == rest[0]
  {
    var digit := [PrintDigit(minor)];
    Advance(b, i, Ascii("HTTP/1."), digit + rest);
    Advance(b, i + 7, digit, rest);
  }

  lemma VersionLineReads(b: seq<byte>, i: nat, minor: nat, crlf: bool, rest: seq<byte>)
    requires minor < 10 && Reads(b, i, PrintVersionLine(minor, crlf, rest))
    ensures var r := VersionLine(b, i);
            r.Ok? && r.value == minor && Reads(b, r.next, rest)
  {
    EolStarts(crlf, rest);
    hide PrintEol, Rest;
    VersionReads(b, i, minor, PrintEol(crlf, rest));
    EolReads(b, i + 8, crlf, rest);
  }

  lemma TargetStarts(m: RequestForm, rest: seq<byte>)
    requires RequestHeadOk(m)
    ensures var t := PrintTarget(m.verb, m.spaces1, m.path, m.spaces2, rest); t != [] && !StartsEol(t[0])
  {
    assert PrintTarget(m.verb, m.spaces1, m.path, m.spaces2, rest)[0] == m.verb[0];
  }

  lemma VersionStarts(minor: nat, rest: seq<byte>)
    requires minor < 10
    ensures var t := PrintVersion(minor, rest); t != [] && t[0] != SP
  {
  }

  lemma RequestHeadReads(b: seq<byte>, m: RequestForm, rest: seq<byte>)
    requires RequestHeadOk(m) && b == PrintRequestHead(m, rest)
    ensures var r := RequestHead(b);
            && r.Ok? && Reads(b, r.next, rest)
            && Text(b, r.value.verb) == m.verb && Text(b, r.value.path) == m.path
            && r.value.minorVersion == m.minorVersion
  {
    var version := PrintVersionLine(m.minorVersion, m.crlf, rest);
    TargetStarts(m, version);
    VersionStarts(m.minorVersion, PrintEol(m.crlf, rest));
    hide LeadingEol, Target, VersionLine, PrintTarget, PrintVersion, PrintLeading, Rest, Text;
    LeadingReads(b, m.leading, PrintTarget(m.verb, m.spaces1, m.path, m.spaces2, version));
    var i := LeadingEol(b).next;
    TargetReads(b, i, m, version);
    VersionLineReads(b, Target(b, i).next, m.minorVersion, m.crlf, rest);
  }

  /** The parse of b consumed everything in front of more, and its spans spell m. */
  ghost predicate Spells(b: seq<byte>, r: Parsed<Request>, m: RequestText, more: seq<byte>) {
    && r.Ok? && r.next == |b| - |more| && RequestIn(b, r.value, r.next) && RequestOf(b, r.value, r.next) == m
  }

  ghost predicate SpellsResponse(b: seq<byte>, r: Parsed<Response>, m: ResponseText, more: seq<byte>) {
    && r.Ok? && r.next == |b| - |more| && ResponseIn(b, r.value, r.next) && ResponseOf(b, r.value, r.next) == m
  }

  lemma FieldsSpelled(b: seq<byte>, hs: seq<Header>, ls: seq<FieldLineText>)
    requires HeadersSpell(b, hs, ls)
    ensures (forall h <- hs :: HeaderIn(b, h)) && FieldsOf(b, hs) == FieldsIn(ls)
  {
  }

  lemma RequestReads(b: seq<byte>, m: RequestForm, max: nat, more: seq<byte>)
    requires RequestFormOk(m) && |m.lines| <= max && b == PrintRequest(m, more)
    ensures Spells(b, ParseRequest(b, max), RequestParts(m), more)
  {
    hide RequestHead, Headers, PrintRequestHead, PrintBlock, Text, Rest, FieldsOf, RequestOk;
    RequestHeadReads(b, m, PrintBlock(m.lines, m.last, more));
    BlockReads(b, RequestHead(b).next, max, m.lines, m.last, more);
    RequestSound(b, max);
    FieldsSpelled(b, ParseRequest(b, max).value.headers, m.lines);
  }

  lemma StatusReads(b: seq<byte>, i: nat, status: nat, rest: seq<byte>)
    requires status < 1000 && Reads(b, i, PrintStatus(status, rest)) && rest != []
    ensures Status(b, i) == Ok(status, i + 3) && Reads(b, i + 3, rest)
  {
    var digits := [PrintDigit(status / 100), PrintDigit(status / 10 % 10), PrintDigit(status % 10)];
    Advance(b, i, digits, rest);
    assert status == 100 * (status / 100) + 10 * (status / 10 % 10) + status % 10;
  }

  lemma StatusStarts(status: nat, rest: seq<byte>)
    requires status < 1000
    ensures var t := PrintStatus(status, rest); t != [] && t[0] != SP
  {
  }

  lemma ReasonReads(b: seq<byte>, i: nat, n: nat, reason: seq<byte>, crlf: bool, rest: seq<byte>)
    requires ReasonOk(reason) && (reason != [] ==> n > 0) && Reads(b, i, PrintReason(n, reason, crlf, rest))
    ensures var r := Reason(b, i);
            r.Ok? && Text(b, r.value) == reason && Reads(b, r.next, rest)
  {
    var line := Repeat(n) + reason;
    assert PrintReason(n, reason, crlf, rest) == line + PrintEol(crlf, rest);
    hide ToEol, Text, PrintReason, PrintEol, Rest, Reason;
    LineReads(b, i, line, crlf, rest);
    ReasonOfLine(b, i, n, reason);
  }

  lemma ReasonOfLine(b: seq<byte>, i: nat, n: nat, reason: seq<byte>)
    requires ReasonOk(reason) && (reason != [] ==> n > 0)
    requires i <= |b| && ToEol(b, i).Ok? && ToEol(b, i).value == Span(i, n + |reason|)
    requires Text(b, Span(i, n + |reason|)) == Repeat(n) + reason
    ensures Reason(b, i) == Ok(Span(i + n, |reason|), ToEol(b, i).next) && Text(b, Span(i + n, |reason|)) == reason
  {
    var end := i + n + |reason|;
    assert forall k :: i <= k < end ==> b[k] == Text(b, Span(i, n + |reason|))[k - i];
    assert b[i + n..end] == b[i..end][n..];
    hide ToEol, Text;
    if i < end {
      FindSpaces(b[..end], i, i + n);
    }
  }

  lemma FindSpaces(b: seq<byte>, i: nat, j: nat)
    requires i <= j <= |b| && (forall k :: i <= k < j ==> b[k] == SP) && (j < |b| ==> b[j] != SP)
    ensures Find(b, i, NotSpace) == j
  {
  }

  lemma ReasonStarts(n: nat, reason: seq<byte>, crlf: bool, rest: seq<byte>)
    ensures PrintReason(n, reason, crlf, rest) != []
  {
    EolStarts(crlf, rest);
  }

  lemma StatusLineReads(b: seq<byte>, m: ResponseForm, rest: seq<byte>)
    requires StatusLineOk(m) && b == PrintStatusLine(m, rest)
    ensures var r := ParseStatusLine(b);
            && r.Ok? && Reads(b, r.next, rest)
            && r.value.minorVersion == m.minorVersion && r.value.status == m.status
            && Text(b, r.value.reason) == m.reason
  {
    Whole(b);
    var reason := PrintReason(m.spaces2, m.reason, m.crlf, rest);
    var status := PrintStatus(m.status, reason);
    ReasonStarts(m.spaces2, m.reason, m.crlf, rest);
    StatusStarts(m.status, reason);
    assert PrintSpaces(m.spaces1, status) != [];
    hide Version, Spaces, Status, Reason, PrintVersion, PrintSpaces, PrintStatus, PrintReason, Rest, Text, ReasonOk;
    VersionReads(b, 0, m.minorVersion, PrintSpaces(m.spaces1, status));
    SpacesRead(b, 8, m.spaces1, status);
    StatusReads(b, 8 + m.spaces1, m.status, reason);
    ReasonReads(b, 11 + m.spaces1, m.spaces2, m.reason, m.crlf, rest);
  }

  lemma ResponseReads(b: seq<byte>, m: ResponseForm, max: nat, more: seq<byte>)
    requires ResponseFormOk(m) && |m.lines| <= max && b == PrintResponse(m, more)
    ensures SpellsResponse(b, ParseResponse(b, max), ResponseParts(m), more)
  {
    hide ParseStatusLine, Headers, PrintStatusLine, PrintBlock, Text, Rest, FieldsOf, ResponseOk;
    StatusLineReads(b, m, PrintBlock(m.lines, m.last, more));
    BlockReads(b, ParseStatusLine(b).next, max, m.lines, m.last, more);
    ResponseSound(b, max);
    FieldsSpelled(b, ParseResponse(b, max).value.headers, m.lines);
  }

  // ---- accepted buffers begin with a printed message ----

  lemma Split(b: seq<byte>, i: nat, j: nat)
    requires i <= j <= |b|
    ensures Rest(b, i) == b[i..j] + Rest(b, j)
  {
  }

  lemma EolShape(b: seq<byte>, i: nat)
    requires i < |b| && Eol(b, i).Ok?
    ensures Rest(b, i) == PrintEol(b[i] == CR, Rest(b, Eol(b, i).next))
  {
    Split(b, i, Eol(b, i).next);
  }

  lemma SpacesShape(b: seq<byte>, i: nat, j: nat)
    requires i <= j <= |b| && forall k :: i <= k < j ==> b[k] == SP
    ensures Rest(b, i) == PrintSpaces(j - i, Rest(b, j))
  {
    Split(b, i, j);
    assert b[i..j] == Repeat(j - i);
  }

  /** Header h stands at i and its line ends at eol: a colon behind the name, blanks before and
      behind the value. */
  ghost predicate StandsAt(b: seq<byte>, i: nat, h: Header, eol: nat) {
    && i <= h.value.start && h.value.start + h.value.len <= eol < |b|
    && (if h.name.Some? then
          var colon := i + h.name.value.len;
          && h.name.value.start == i && colon < h.value.start && b[colon] == ':' as int
          && forall k :: colon < k < h.value.start ==> IsSpaceOrTab(b[k])
        else
          h.value.start == i < eol)
    && forall k :: h.value.start + h.value.len <= k < eol ==> IsSpaceOrTab(b[k])
  }

  lemma FieldLineStands(b: seq<byte>, i: nat, continues: bool) returns (eol: nat)
    requires i < |b| && FieldLine(b, i, continues).Ok?
    ensures var r := FieldLine(b, i, continues);
            StandsAt(b, i, r.value, eol) && Eol(b, eol) == Ok((), r.next)
  {
    eol := Find(b, FieldName(b, i, continues).next, EndsLine);
  }

  /** The field line that stands at i. */
  ghost function LineAt(b: seq<byte>, i: nat, h: Header, eol: nat): FieldLineText
    requires StandsAt(b, i, h, eol)
  {
    FieldLineText(FieldOf(b, h), if h.name.Some? then b[i + h.name.value.len + 1..h.value.start] else [],
                  b[h.value.start + h.value.len..eol], b[eol] == CR)
  }

  lemma ValueShape(b: seq<byte>, value: Span, eol: nat, rest: seq<byte>)
    requires value.start + value.len <= eol < |b| && Rest(b, eol) == PrintEol(b[eol] == CR, rest)
    ensures Rest(b, value.start) == PrintValue(Text(b, value), b[value.start + value.len..eol], b[eol] == CR, rest)
  {
    hide PrintEol;
    Split(b, value.start, value.start + value.len);
    Split(b, value.start + value.len, eol);
  }

  lemma NameShape(b: seq<byte>, name: Span, start: nat)
    requires name.start + name.len < start <= |b| && b[name.start + name.len] == ':' as int
    ensures Rest(b, name.start) == PrintName(Text(b, name), b[name.start + name.len + 1..start], Rest(b, start))
  {
    var colon := name.start + name.len;
    Split(b, name.start, colon);
    Split(b, colon, colon + 1);
    Split(b, colon + 1, start);
  }

  lemma StandsPrinted(b: seq<byte>, i: nat, h: Header, eol: nat, rest: seq<byte>)
    requires StandsAt(b, i, h, eol) && Rest(b, eol) == PrintEol(b[eol] == CR, rest)
    ensures Rest(b, i) == PrintLine(LineAt(b, i, h, eol), rest)
  {
    hide PrintEol, PrintValue, PrintName, Rest, Text;
    ValueShape(b, h.value, eol, rest);
    if h.name.Some? {
      NameShape(b, h.name.value, h.value.start);
    }
  }

  lemma StandsOk(b: seq<byte>, i: nat, h: Header, eol: nat, continues: bool)
    requires StandsAt(b, i, h, eol) && FieldOk(FieldOf(b, h), continues)
    ensures LineOk(LineAt(b, i, h, eol), continues)
  {
    hide FieldOk;
  }

  lemma FieldLineShape(b: seq<byte>, i: nat, continues: bool) returns (l: FieldLineText)
    requires i < |b| && FieldLine(b, i, continues).Ok?
    ensures var r := FieldLine(b, i, continues);
            && HeaderIn(b, r.value) && l.field == FieldOf(b, r.value)
            && LineOk(l, continues) && Rest(b, i) == PrintLine(l, Rest(b, r.next))
  {
    FieldLineSound(b, i, continues);
    hide FieldLine, Eol, FieldOk, StandsAt, PrintLine, LineOk, Rest, HeadersIn;
    var eol := FieldLineStands(b, i, continues);
    EolShape(b, eol);
    var r := FieldLine(b, i, continues);
    l := LineAt(b, i, r.value, eol);
    StandsOk(b, i, r.value, eol, continues);
    StandsPrinted(b, i, r.value, eol, Rest(b, r.next));
  }

  lemma {:induction false} LinesShape(b: seq<byte>, i: nat, n: nat, max: nat)
    returns (ls: seq<FieldLineText>, last: bool)
    requires i <= |b| && n <= max && Headers(b, i, n, max).Ok?
    ensures var r := Headers(b, i, n, max);
            && HeadersSpell(b, r.value, ls) && LinesOk(ls, n != 0)
            && Rest(b, i) == PrintBlock(ls, last, Rest(b, r.next))
    decreases |b| - i
  {
    if StartsEol(b[i]) {
      ls, last := [], b[i] == CR;
      EolShape(b, i);
    } else {
      hide Rest, PrintEol, PrintLine;
      var l := FieldLineShape(b, i, n != 0);
      var line := FieldLine(b, i, n != 0);
      ls, last := LinesShape(b, line.next, n + 1, max);
      LineInFront(b, i, n, max, l, ls, last);
      ls := [l] + ls;
    }
  }

  lemma LineInFront(b: seq<byte>, i: nat, n: nat, max: nat, l: FieldLineText, ls: seq<FieldLineText>, last: bool)
    requires i < |b| && n < max && Headers(b, i, n, max).Ok? && !StartsEol(b[i])
    requires var line := FieldLine(b, i, n != 0);
             && HeaderIn(b, line.value) && l.field == FieldOf(b, line.value)
             && LineOk(l, n != 0) && Rest(b, i) == PrintLine(l, Rest(b, line.next))
             && var rest := Headers(b, line.next, n + 1, max);
                && HeadersSpell(b, rest.value, ls) && LinesOk(ls, true)
                && Rest(b, line.next) == PrintBlock(ls, last, Rest(b, rest.next))
    ensures var r := Headers(b, i, n, max);
            && HeadersSpell(b, r.value, [l] + ls) && LinesOk([l] + ls, n != 0)
            && Rest(b, i) == PrintBlock([l] + ls, last, Rest(b, r.next))
  {
    var line := FieldLine(b, i, n != 0);
    var rest := Headers(b, line.next, n + 1, max);
    assert Headers(b, i, n, max) == Ok([line.value] + rest.value, rest.next);
    hide FieldLine, Headers, LineOk, LinesOk, PrintLine, PrintEol, FieldOf, HeaderIn, HeadersSpell, Rest;
    assert ([l] + ls)[1..] == ls;
    SpellCons(b, line.value, rest.value, [l] + ls);
    LinesOkCons(l, ls, n != 0);
  }

  lemma LinesOkCons(l: FieldLineText, ls: seq<FieldLineText>, continues: bool)
    requires LineOk(l, continues) && LinesOk(ls, true)
    ensures LinesOk([l] + ls, continues)
  {
    hide LineOk;
    assert forall k :: 0 <= k < |ls| ==> LineOk(ls[k], true);
  }

  /** A word and the spaces from its end to n. */
  lemma WordShape(b: seq<byte>, word: Span, n: nat)
    requires word.start + word.len <= n <= |b|
    requires forall k :: word.start + word.len <= k < n ==> b[k] == SP
    ensures Rest(b, word.start) == PrintWord(Text(b, word), n - (word.start + word.len), Rest(b, n))
  {
    Split(b, word.start, word.start + word.len);
    SpacesShape(b, word.start + word.len, n);
  }

  lemma TargetMarks(b: seq<byte>, i: nat)
    requires i <= |b| && Target(b, i).Ok?
    ensures var r := Target(b, i); var (verb, path) := r.value;
            && verb.start == i && i + verb.len < path.start && path.start + path.len < r.next <= |b|
            && (forall k :: i + verb.len <= k < path.start ==> b[k] == SP)
            && (forall k :: path.start + path.len <= k < r.next ==> b[k] == SP)
  {
  }

  lemma TargetShape(b: seq<byte>, i: nat) returns (spaces1: nat, spaces2: nat)
    requires i <= |b| && Target(b, i).Ok?
    ensures var r := Target(b, i); var (verb, path) := r.value;
            && spaces1 > 0 && spaces2 > 0 && path.start + path.len <= r.next
            && Rest(b, i) == PrintTarget(Text(b, verb), spaces1, Text(b, path), spaces2, Rest(b, r.next))
  {
    hide Target, PrintWord, Rest, Text;
    var r := Target(b, i);
    var (verb, path) := r.value;
    assert Rest(b, i) == PrintWord(Text(b, verb), path.start - (i + verb.len), Rest(b, path.start)) by {
      TargetMarks(b, i);
      WordShape(b, verb, path.start);
    }
    assert Rest(b, path.start) == PrintWord(Text(b, path), r.next - (path.start + path.len), Rest(b, r.next)) by {
      TargetMarks(b, i);
      WordShape(b, path, r.next);
    }
    TargetOrder(b, i);
    spaces1, spaces2 := path.start - (i + verb.len), r.next - (path.start + path.len);
  }

  lemma TargetOrder(b: seq<byte>, i: nat)
    requires i <= |b| && Target(b, i).Ok?
    ensures var r := Target(b, i); var (verb, path) := r.value;
            verb.start == i && i + verb.len < path.start && path.start + path.len < r.next <= |b|
  {
  }

  lemma VersionShape(b: seq<byte>, i: nat)
    requires i <= |b| && Version(b, i).Ok?
    ensures Rest(b, i) == PrintVersion(Version(b, i).value, Rest(b, i + 8))
  {
    Split(b, i, i + 7);
    assert Ascii("HTTP/1.") == HTTP1;
    assert Rest(b, i + 7) == [b[i + 7]] + Rest(b, i + 8);
  }

  lemma LeadingShape(b: seq<byte>) returns (leading: Option<bool>)
    requires LeadingEol(b).Ok?
    ensures b == PrintLeading(leading, Rest(b, LeadingEol(b).next))
  {
    leading := None;
    Whole(b);
    if StartsEol(b[0]) {
      leading := Some(b[0] == CR);
      EolShape(b, 0);
    }
  }

  lemma VersionLineShape(b: seq<byte>, i: nat) returns (crlf: bool)
    requires i <= |b| && VersionLine(b, i).Ok?
    ensures var r := VersionLine(b, i); Rest(b, i) == PrintVersionLine(r.value, crlf, Rest(b, r.next))
  {
    hide PrintVersion, PrintEol, Rest;
    crlf := b[i + 8] == CR;
    VersionShape(b, i);
    EolShape(b, i + 8);
  }

  lemma RequestHeadShape(b: seq<byte>) returns (m: RequestForm)
    requires RequestHead(b).Ok?
    ensures var r := RequestHead(b);
            && RequestHeadOk(m) && m.lines == [] && b == PrintRequestHead(m, Rest(b, r.next))
            && m.verb == Text(b, r.value.verb) && m.path == Text(b, r.value.path)
            && m.minorVersion == r.value.minorVersion
  {
    hide LeadingEol, Target, VersionLine, PrintTarget, PrintVersionLine, PrintLeading, Rest, Text, IsToken, PathOk;
    var r, i := RequestHead(b), LeadingEol(b).next;
    var leading := LeadingShape(b);
    var spaces1, spaces2 := TargetShape(b, i);
    TargetSound(b, i);
    var crlf := VersionLineShape(b, Target(b, i).next);
    m := RequestForm(leading, Text(b, r.value.verb), spaces1, Text(b, r.value.path), spaces2,
                     r.value.minorVersion, crlf, [], true);
  }

  lemma RequestShape(b: seq<byte>, max: nat) returns (m: RequestForm)
    requires ParseRequest(b, max).Ok?
    ensures var r := ParseRequest(b, max);
            RequestFormOk(m) && |m.lines| <= max && b == PrintRequest(m, Rest(b, r.next))
  {
    hide RequestHead, Headers, PrintTarget, PrintVersionLine, PrintLeading, PrintLines, PrintEol, Rest;
    var j := RequestHead(b).next;
    var head := RequestHeadShape(b);
    var ls, last := LinesShape(b, j, 0, max);
    m := head.(lines := ls, last := last);
  }

  /** Where the status is. */
  function StatusAt(b: seq<byte>): (n: nat)
    requires ParseStatusLine(b).Ok?
    ensures 8 < n < |b| && Status(b, n).Ok? && Reason(b, n + 3).Ok?
  {
    Spaces(b, 8).next
  }

  lemma StatusLineSteps(b: seq<byte>)
    requires ParseStatusLine(b).Ok?
    ensures Version(b, 0).Ok?
    ensures var n := StatusAt(b); var reason := Reason(b, n + 3);
            && Rest(b, 8) == PrintSpaces(n - 8, Rest(b, n))
            && ParseStatusLine(b) == Ok(StatusLine(Version(b, 0).value, Status(b, n).value, reason.value), reason.next)
  {
    SpacesShape(b, 8, StatusAt(b));
  }

  lemma StatusLineShape(b: seq<byte>) returns (m: ResponseForm)
    requires ParseStatusLine(b).Ok?
    ensures var r := ParseStatusLine(b);
            && StatusLineOk(m) && m.lines == [] && b == PrintStatusLine(m, Rest(b, r.next))
  {
    hide ParseStatusLine, Version, Spaces, Status, Reason, PrintVersion, PrintStatus, PrintSpaces, PrintReason,
      Rest, Text, ReasonOk, StatusAt;
    StatusLineSteps(b);
    var n := StatusAt(b);
    var reason := Reason(b, n + 3).value;
    Whole(b);
    VersionShape(b, 0);
    StatusShape(b, n);
    var crlf := ReasonShape(b, n + 3);
    ReasonSound(b, n + 3);
    m := ResponseForm(Version(b, 0).value, n - 8, Status(b, n).value, reason.start - (n + 3), Text(b, reason),
                      crlf, [], true);
  }

  lemma StatusShape(b: seq<byte>, i: nat)
    requires i <= |b| && Status(b, i).Ok?
    ensures Rest(b, i) == PrintStatus(Status(b, i).value, Rest(b, i + 3))
  {
    Split(b, i, i + 3);
    var x, y, z := Digit(b[i]), Digit(b[i + 1]), Digit(b[i + 2]);
    assert Status(b, i).value == 100 * x + 10 * y + z;
    assert (100 * x + 10 * y + z) / 10 == 10 * x + y;
  }

  lemma ReasonMarks(b: seq<byte>, i: nat)
    requires i <= |b| && Reason(b, i).Ok?
    ensures var r := Reason(b, i); var eol := r.value.start + r.value.len;
            && i <= r.value.start && eol < |b| && Eol(b, eol) == Ok((), r.next)
            && (r.value.len > 0 ==> i < r.value.start)
            && forall k :: i <= k < r.value.start ==> b[k] == SP
  {
    var eol := i + ToEol(b, i).value.len;
    assert forall k :: i <= k < Reason(b, i).value.start ==> b[k] == b[..eol][k];
  }

  lemma ReasonShape(b: seq<byte>, i: nat) returns (crlf: bool)
    requires i <= |b| && Reason(b, i).Ok?
    ensures var r := Reason(b, i);
            && (r.value.len > 0 ==> i < r.value.start) && i <= r.value.start
            && Rest(b, i) == PrintReason(r.value.start - i, Text(b, r.value), crlf, Rest(b, r.next))
  {
    hide Reason, Eol, PrintEol, PrintSpaces, Rest, Text;
    var r := Reason(b, i);
    var eol := r.value.start + r.value.len;
    assert i <= r.value.start && eol < |b| && Eol(b, eol) == Ok((), r.next)
           && Rest(b, i) == PrintSpaces(r.value.start - i, Rest(b, r.value.start)) by {
      ReasonMarks(b, i);
      SpacesShape(b, i, r.value.start);
    }
    crlf := b[eol] == CR;
    SplitText(b, r.value);
    EolShape(b, eol);
    ReasonMarks(b, i);
  }

  lemma SplitText(b: seq<byte>, s: Span)
    requires s.start + s.len <= |b|
    ensures Rest(b, s.start) == Text(b, s) + Rest(b, s.start + s.len)
  {
  }

  lemma ResponseShape(b: seq<byte>, max: nat) returns (m: ResponseForm)
    requires ParseResponse(b, max).Ok?
    ensures var r := ParseResponse(b, max);
            ResponseFormOk(m) && |m.lines| <= max && b == PrintResponse(m, Rest(b, r.next))
  {
    hide ParseStatusLine, Headers, PrintVersion, PrintSpaces, PrintStatus, PrintLines, PrintEol, Rest;
    var j := ParseStatusLine(b).next;
    var head := StatusLineShape(b);
    var ls, last := LinesShape(b, j, 0, max);
    m := head.(lines := ls, last := last);
  }

  // ---- accepted exactly if printed ----

  /** A header block is accepted exactly if it begins with printed field lines and a blank line. */
  lemma AcceptsExactlyBlocks(b: seq<byte>, max: nat)
    ensures Headers(b, 0, 0, max).Ok? <==>
            exists ls, last, more :: LinesOk(ls, false) && |ls| <= max && b == PrintBlock(ls, last, more)
  {
    Whole(b);
    if Headers(b, 0, 0, max).Ok? {
      var ls, last := LinesShape(b, 0, 0, max);
    }
    forall ls, last, more | LinesOk(ls, false) && |ls| <= max && b == PrintBlock(ls, last, more)
      ensures Headers(b, 0, 0, max).Ok?
    {
      BlockReads(b, 0, max, ls, last, more);
    }
  }

  lemma AcceptsExactlyRequests(b: seq<byte>, max: nat)
    ensures ParseRequest(b, max).Ok? <==>
            exists m, more :: RequestFormOk(m) && |m.lines| <= max && b == PrintRequest(m, more)
  {
    hide ParseRequest, PrintRequest, LinesOk;
    if ParseRequest(b, max).Ok? {
      var m := RequestShape(b, max);
    }
    forall m, more | RequestFormOk(m) && |m.lines| <= max && b == PrintRequest(m, more)
      ensures ParseRequest(b, max).Ok?
    {
      RequestReads(b, m, max, more);
    }
  }

  lemma AcceptsExactlyResponses(b: seq<byte>, max: nat)
    ensures ParseResponse(b, max).Ok? <==>
            exists m, more :: ResponseFormOk(m) && |m.lines| <= max && b == PrintResponse(m, more)
  {
    hide ParseResponse, PrintResponse, LinesOk;
    if ParseResponse(b, max).Ok? {
      var m := ResponseShape(b, max);
    }
    forall m, more | ResponseFormOk(m) && |m.lines| <= max && b == PrintResponse(m, more)
      ensures ParseResponse(b, max).Ok?
    {
      ResponseReads(b, m, max, more);
    }
  }

  // ---- the plain printing: CRLF, and one space where there has to be one ----

  function PlainLine(f: Field): FieldLineText {
    if f.name.Some? then FieldLineText(f, [32], [], true)
    else FieldLineText(f, [], if f.value == [] then [32] else [], true)
  }

  function PlainLines(fs: seq<Field>): (ls: seq<FieldLineText>)
    ensures |ls| == |fs| && forall k :: 0 <= k < |fs| ==> ls[k] == PlainLine(fs[k])
  {
    seq(|fs|, k requires 0 <= k < |fs| => PlainLine(fs[k]))
  }

  function PlainRequest(m: RequestText): RequestForm {
    RequestForm(None, m.verb, 1, m.path, 1, m.minorVersion, true, PlainLines(m.fields), true)
  }

  function PlainResponse(m: ResponseText): ResponseForm {
    ResponseForm(m.minorVersion, 1, m.status, 1, m.reason, true, PlainLines(m.fields), true)
  }

  lemma PlainLinesOk(fs: seq<Field>)
    requires FieldsOk(fs, false)
    ensures LinesOk(PlainLines(fs), false) && FieldsIn(PlainLines(fs)) == fs
  {
  }

  /** A well-formed request, printed plainly and parsed, comes back as it was. */
  lemma RequestRoundTrip(m: RequestText, max: nat, more: seq<byte>)
    requires RequestOk(m) && |m.fields| <= max
    ensures var b := PrintRequest(PlainRequest(m), more);
            Spells(b, ParseRequest(b, max), m, more)
  {
    PlainLinesOk(m.fields);
    hide LinesOk, ParseRequest, Spells;
    RequestReads(PrintRequest(PlainRequest(m), more), PlainRequest(m), max, more);
  }

  lemma ResponseRoundTrip(m: ResponseText, max: nat, more: seq<byte>)
    requires ResponseOk(m) && |m.fields| <= max
    ensures var b := PrintResponse(PlainResponse(m), more);
            SpellsResponse(b, ParseResponse(b, max), m, more)
  {
    PlainLinesOk(m.fields);
    hide LinesOk, ParseResponse, SpellsResponse;
    ResponseReads(PrintResponse(PlainResponse(m), more), PlainResponse(m), max, more);
  }

  /** Printing what a parse found and parsing that finds the same: the well-formed requests are
      exactly those that parses of accepted buffers spell. */
  lemma ReparseRequest(b: seq<byte>, max: nat, more: seq<byte>)
    requires ParseRequest(b, max).Ok?
    ensures var r := ParseRequest(b, max);
            && RequestIn(b, r.value, r.next)
            && var m := RequestOf(b, r.value, r.next);
               && m.minorVersion < 10
               && var b' := PrintRequest(PlainRequest(m), more); Spells(b', ParseRequest(b', max), m, more)
  {
    RequestSound(b, max);
    var r := ParseRequest(b, max);
    RequestRoundTrip(RequestOf(b, r.value, r.next), max, more);
  }
}
