/**
 * The frame parser. The combinators run on a partial buffer and give one of three verdicts:
 * a value with the number of octets used, "more input is needed", or failure.
 */
module Parsing {
  import opened Octets
  import opened Frames

  datatype Parsed<+T> = Done(value: T, used: nat) | Incomplete | Fail

  predicate IsAlpha(b: Byte) { 'a' <= b <= 'z' || 'A' <= b <= 'Z' }
  predicate IsKeyByte(b: Byte) { b != ':' && b != '\r' && b != '\n' }
  predicate IsValueByte(b: Byte) { b != '\r' && b != '\n' }
  predicate NotNul(b: Byte) { b != '\0' }

  // Combinators

  function Literal(b: Byte, s: Bytes): (r: Parsed<()>)
    ensures r.Done? ==> s != [] && s[0] == b && r.used == 1
  {
    if s == [] then Incomplete else if s[0] == b then Done((), 1) else Fail
  }

  function LineEnding(s: Bytes): Parsed<()>
  {
    if s == [] then Incomplete
    else if s[0] == '\n' then Done((), 1)
    else if s[0] != '\r' then Fail
    else if |s| == 1 then Incomplete
    else if s[1] == '\n' then Done((), 2)
    else Fail
  }

  /** `opt(line_ending.complete_err())`: a line ending cut off by the end of the buffer counts as absent. */
  function OptLineEnding(s: Bytes): (n: nat)
    ensures n <= |s|
  {
    match LineEnding(s)
    case Done(_, n) => n
    case _ => 0
  }

  function TakeWhile1(p: Byte -> bool, s: Bytes): (r: Parsed<Bytes>)
    ensures r.Done? ==> 0 < r.used < |s| && r.used == Span(p, s) && r.value == s[..r.used]
  {
    var n := Span(p, s);
    if n == |s| then Incomplete else if n == 0 then Fail else Done(s[..n], n)
  }

  /** Everything up to a line ending; a carriage return that does not start one is an error. */
  function TillLineEnding(s: Bytes): Parsed<Bytes>
  {
    var n := Span(IsValueByte, s);
    if n == |s| then Incomplete
    else if s[n] == '\r' && n + 1 == |s| then Incomplete
    else if s[n] == '\r' && s[n + 1] != '\n' then Fail
    else Done(s[..n], n)
  }

  // Grammar

  function ValueLine(s: Bytes): (r: Parsed<Bytes>)
    ensures r.Done? ==> 0 < r.used <= |s|
  {
    match TillLineEnding(s)
    case Incomplete => Incomplete
    case Fail => Fail
    case Done(value, n) =>
      match LineEnding(s[n..])
      case Incomplete => Incomplete
      case Fail => Fail
      case Done(_, e) => Done(value, n + e)
  }

  function ParsedHeader(s: Bytes): (r: Parsed<Header>)
    ensures r.Done? ==> 0 < r.used <= |s|
  {
    match TakeWhile1(IsKeyByte, s)
    case Incomplete => Incomplete
    case Fail => Fail
    case Done(key, n) =>
      match Literal(':', s[n..])
      case Incomplete => Incomplete
      case Fail => Fail
      case Done(_, _) =>
        match ValueLine(s[n + 1..])
        case Incomplete => Incomplete
        case Fail => Fail
        case Done(value, m) => Done(Header(key, value), n + 1 + m)
  }

  lemma HeaderAfterColon(s: Bytes, n: nat)
    requires n < |s|
    requires TakeWhile1(IsKeyByte, s) == Done(s[..n], n) && Literal(':', s[n..]) == Done((), 1)
    ensures ParsedHeader(s) ==
            match ValueLine(s[n + 1..])
            case Incomplete => Incomplete
            case Fail => Fail
            case Done(value, m) => Done(Header(s[..n], value), n + 1 + m)
  {
    hide TakeWhile1, Literal, ValueLine;
  }

  /** A header whose key ends at a colon takes the verdict on the value behind it. */
  lemma HeaderFromValue(s: Bytes, n: nat)
    requires 0 < n < |s| && n == Span(IsKeyByte, s) && s[n] == ':'
    ensures ParsedHeader(s) ==
            match ValueLine(s[n + 1..])
            case Incomplete => Incomplete
            case Fail => Fail
            case Done(value, m) => Done(Header(s[..n], value), n + 1 + m)
  {
    hide ValueLine;
    hide ParsedHeader;
    assert TakeWhile1(IsKeyByte, s) == Done(s[..n], n);
    assert s[n..][0] == s[n];
    assert Literal(':', s[n..]) == Done((), 1);
    HeaderAfterColon(s, n);
  }

  /** Headers for as long as they parse, then the empty line. */
  function HeaderBlock(s: Bytes): (r: Parsed<seq<Header>>)
    ensures r.Done? ==> 0 < r.used <= |s|
  {
    match ParsedHeader(s)
    case Incomplete => Incomplete
    case Done(h, n) =>
      (match HeaderBlock(s[n..])
       case Incomplete => Incomplete
       case Fail => Fail
       case Done(hs, m) => Done([h] + hs, n + m))
    case Fail =>
      (match LineEnding(s)
       case Incomplete => Incomplete
       case Fail => Fail
       case Done(_, e) => Done([], e))
  }

  function CommandLine(s: Bytes): (r: Parsed<Bytes>)
    ensures r.Done? ==> 0 < r.used <= |s|
  {
    match TakeWhile1(IsAlpha, s)
    case Incomplete => Incomplete
    case Fail => Fail
    case Done(command, n) =>
      match LineEnding(s[n..])
      case Incomplete => Incomplete
      case Fail => Fail
      case Done(_, e) => Done(command, n + e)
  }

  /** The body, delimited by its declared length or else by the first NUL. */
  function Body(length: Option<U32>, s: Bytes): (r: Parsed<Option<Bytes>>)
    ensures r.Done? ==> r.used <= |s|
  {
    match length
    case None =>
      var n := Span(NotNul, s);
      if n == |s| then Incomplete else Done(ReportedBody(None, s[..n]), n)
    case Some(n) =>
      if |s| < n then Incomplete else Done(Some(s[..n]), n)
  }

  function BodyEnd(length: Option<U32>, s: Bytes): (r: Parsed<Option<Bytes>>)
    ensures r.Done? ==> 0 < r.used <= |s|
  {
    match Body(length, s)
    case Incomplete => Incomplete
    case Fail => Fail
    case Done(body, n) =>
      match Literal('\0', s[n..])
      case Incomplete => Incomplete
      case Fail => Fail
      case Done(_, _) => Done(body, n + 1)
  }

  /** A frame from its command up to and including the terminating NUL. */
  function FrameCore(s: Bytes): (r: Parsed<Frame>)
    ensures r.Done? ==> 0 < r.used <= |s|
  {
    match CommandLine(s)
    case Incomplete => Incomplete
    case Fail => Fail
    case Done(command, n) =>
      var s1 := s[n..];
      match HeaderBlock(s1)
      case Incomplete => Incomplete
      case Fail => Fail
      case Done(headers, m) =>
        match BodyEnd(GetContentLength(headers), s1[m..])
        case Incomplete => Incomplete
        case Fail => Fail
        case Done(body, k) => Done(Frame(command, headers, body), n + m + k)
  }

  /** A parsed frame together with the optional line ending behind it. */
  function WithTrail(core: Parsed<Frame>, s: Bytes): (r: Parsed<Frame>)
    requires core.Done? ==> 0 < core.used <= |s|
    ensures r.Done? ==> 0 < r.used <= |s|
  {
    match core
    case Incomplete => Incomplete
    case Fail => Fail
    case Done(f, n) => Done(f, n + OptLineEnding(s[n..]))
  }

  function Shift(r: Parsed<Frame>, n: nat): Parsed<Frame>
  {
    if r.Done? then r.(used := n + r.used) else r
  }

  /** `parse_frame`: the frame with an optional line ending on either side. */
  function ParsedFrame(s: Bytes): (r: Parsed<Frame>)
    ensures r.Done? ==> 0 < r.used <= |s|
  {
    var lead := OptLineEnding(s);
    Shift(WithTrail(FrameCore(s[lead..]), s[lead..]), lead)
  }

  /** The input cursor that the source's parsers advance. */
  class Cursor {
    var input: Bytes

    constructor (s: Bytes)
      ensures input == s
    {
      input := s;
    }

    method Take(n: nat)
      requires n <= |input|
      modifies this
      ensures input == old(input)[n..]
    {
      input := input[n..];
    }

    method ParseValueLine() returns (r: Parsed<Bytes>)
      modifies this
      ensures r == ValueLine(old(input))
      ensures r.Done? ==> input == old(input)[r.used..]
    {
      var value := TillLineEnding(input);
      if !value.Done? { return if value.Fail? then Fail else Incomplete; }
      Take(value.used);
      var eol := LineEnding(input);
      if !eol.Done? { return if eol.Fail? then Fail else Incomplete; }
      Take(eol.used);
      r := Done(value.value, value.used + eol.used);
    }

    method ParseHeader() returns (r: Parsed<Header>)
      modifies this
      ensures r == ParsedHeader(old(input))
      ensures r.Done? ==> input == old(input)[r.used..]
    {
      hide TakeWhile1, ValueLine, Literal;
      var key := TakeWhile1(IsKeyByte, input);
      if !key.Done? { return if key.Fail? then Fail else Incomplete; }
      Take(key.used);
      var colon := Literal(':', input);
      if !colon.Done? { return if colon.Fail? then Fail else Incomplete; }
      Take(1);
      DropTwice(old(input), key.used, 1);
      var value := ParseValueLine();
      if !value.Done? { return if value.Fail? then Fail else Incomplete; }
      DropTwice(old(input), key.used + 1, value.used);
      r := Done(Header(key.value, value.value), key.used + 1 + value.used);
    }

    /** `repeat(0.., parse_header)`: stops at the first header that fails, and rewinds it. */
    method RepeatHeaders() returns (r: Parsed<seq<Header>>)
      modifies this
      ensures !r.Fail?
      ensures r.Incomplete? ==> HeaderBlock(old(input)).Incomplete?
      ensures r.Done? ==> r.used <= |old(input)| && input == old(input)[r.used..]
      ensures r.Done? ==> ParsedHeader(input).Fail?
      ensures r.Done? ==> HeaderBlock(old(input)) == After(r.value, r.used, HeaderBlock(input))
    {
      hide ParsedHeader, HeaderBlock, After;
      ghost var start := input;
      var headers: seq<Header> := [];
      var used: nat := 0;
      BlockStart(input);
      while true
        invariant used <= |start| && input == start[used..]
        invariant HeaderBlock(start) == After(headers, used, HeaderBlock(input))
        decreases |input|
      {
        var checkpoint := input;
        var h := ParseHeader();
        if h.Incomplete? {
          BlockWaits(start, headers, used, checkpoint);
          return Incomplete;
        }
        if h.Fail? {
          input := checkpoint;
          return Done(headers, used);
        }
        BlockStep(start, headers, used, checkpoint, h.value, h.used);
        headers := headers + [h.value];
        used := used + h.used;
      }
    }

    /** `terminated(repeat(0.., parse_header), line_ending)` */
    method ParseHeaderBlock() returns (r: Parsed<seq<Header>>)
      modifies this
      ensures r == HeaderBlock(old(input))
      ensures r.Done? ==> input == old(input)[r.used..]
    {
      var headers := RepeatHeaders();
      if headers.Incomplete? { return Incomplete; }
      BlockEnd(old(input), headers.value, headers.used, input);
      var eol := LineEnding(input);
      if !eol.Done? { return if eol.Fail? then Fail else Incomplete; }
      Take(eol.used);
      r := Done(headers.value, headers.used + eol.used);
    }

    method ParseCommandLine() returns (r: Parsed<Bytes>)
      modifies this
      ensures r == CommandLine(old(input))
      ensures r.Done? ==> input == old(input)[r.used..]
    {
      var command := TakeWhile1(IsAlpha, input);
      if !command.Done? { return if command.Fail? then Fail else Incomplete; }
      Take(command.used);
      var eol := LineEnding(input);
      if !eol.Done? { return if eol.Fail? then Fail else Incomplete; }
      Take(eol.used);
      r := Done(command.value, command.used + eol.used);
    }

    method ParseBodyEnd(length: Option<U32>) returns (r: Parsed<Option<Bytes>>)
      modifies this
      ensures r == BodyEnd(length, old(input))
      ensures r.Done? ==> input == old(input)[r.used..]
    {
      var body := Body(length, input);
      if !body.Done? { return if body.Fail? then Fail else Incomplete; }
      Take(body.used);
      var nul := Literal('\0', input);
      if !nul.Done? { return if nul.Fail? then Fail else Incomplete; }
      Take(1);
      r := Done(body.value, body.used + 1);
    }

    method ParseCore() returns (r: Parsed<Frame>)
      modifies this
      ensures r == FrameCore(old(input))
      ensures r.Done? ==> input == old(input)[r.used..]
    {
      hide CommandLine, HeaderBlock, BodyEnd;
      var command := ParseCommandLine();
      if !command.Done? { return if command.Fail? then Fail else Incomplete; }
      var headers := ParseHeaderBlock();
      if !headers.Done? { return if headers.Fail? then Fail else Incomplete; }
      var body := ParseBodyEnd(GetContentLength(headers.value));
      if !body.Done? { return if body.Fail? then Fail else Incomplete; }
      r := Done(Frame(command.value, headers.value, body.value), command.used + headers.used + body.used);
    }

    method ParseFrame() returns (r: Parsed<Frame>)
      modifies this
      ensures r == ParsedFrame(old(input))
      ensures r.Done? ==> input == old(input)[r.used..]
    {
      hide FrameCore;
      var lead := OptLineEnding(input);
      Take(lead);
      var core := ParseCore();
      if !core.Done? { return if core.Fail? then Fail else Incomplete; }
      var trail := OptLineEnding(input);
      Take(trail);
      assert input == old(input)[lead + core.used + trail..];
      r := Done(core.value, lead + core.used + trail);
    }
  }

  /** The verdict on a whole block whose first headers have already been read. */
  ghost function After(headers: seq<Header>, used: nat, rest: Parsed<seq<Header>>): Parsed<seq<Header>>
  {
    match rest
    case Incomplete => Incomplete
    case Fail => Fail
    case Done(hs, n) => Done(headers + hs, used + n)
  }

  lemma BlockStart(s: Bytes)
    ensures HeaderBlock(s) == After([], 0, HeaderBlock(s))
  {
    assert HeaderBlock(s).Done? ==> [] + HeaderBlock(s).value == HeaderBlock(s).value;
  }

  lemma BlockStep(start: Bytes, headers: seq<Header>, used: nat, s: Bytes, h: Header, n: nat)
    requires HeaderBlock(start) == After(headers, used, HeaderBlock(s))
    requires ParsedHeader(s) == Done(h, n)
    ensures HeaderBlock(start) == After(headers + [h], used + n, HeaderBlock(s[n..]))
  {
    hide ParsedHeader;
    var rest := HeaderBlock(s[n..]);
    if rest.Done? {
      assert headers + ([h] + rest.value) == (headers + [h]) + rest.value;
    }
  }

  lemma BlockWaits(start: Bytes, headers: seq<Header>, used: nat, s: Bytes)
    requires HeaderBlock(start) == After(headers, used, HeaderBlock(s))
    requires ParsedHeader(s).Incomplete?
    ensures HeaderBlock(start).Incomplete?
  {
    hide ParsedHeader;
  }

  lemma BlockEnd(start: Bytes, headers: seq<Header>, used: nat, s: Bytes)
    requires HeaderBlock(start) == After(headers, used, HeaderBlock(s))
    requires ParsedHeader(s).Fail?
    ensures HeaderBlock(start) ==
            match LineEnding(s)
            case Incomplete => Incomplete
            case Fail => Fail
            case Done(_, e) => Done(headers, used + e)
  {
    assert headers + [] == headers;
  }
}
