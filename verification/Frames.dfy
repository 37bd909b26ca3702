/** Frames and the printer (`Frame::serialize`). */
module Frames {
  import opened Octets
  import opened Escaping
  import Decimal
  import Utf8

  datatype Header = Header(key: Bytes, value: Bytes)

  /**
   * A frame. Built from a message it holds logical header values; parsed from the wire
   * it holds header values as they stood there, still escaped.
   */
  datatype Frame = Frame(command: Bytes, headers: seq<Header>, body: Option<Bytes>)

  predicate HeadersAreEscaped(command: Bytes)
  {
    && command != "CONNECT" && command != "connect"
    && command != "CONNECTED" && command != "connected"
    && command != "STOMP" && command != "stomp"
  }

  function BodyBytes(body: Option<Bytes>): Bytes
  {
    if body.Some? then body.value else []
  }

  function EscapeIf(escape: bool, s: Bytes): Bytes
  {
    if escape then Escape(s) else s
  }

  function HeaderLine(escape: bool, h: Header): Bytes
  {
    EscapeIf(escape, h.key) + ":" + EscapeIf(escape, h.value) + "\n"
  }

  function HeaderLines(escape: bool, hs: seq<Header>): Bytes
  {
    if hs == [] then [] else HeaderLine(escape, hs[0]) + HeaderLines(escape, hs[1..])
  }

  /** The octets that `Serialize` appends. */
  function Serialized(f: Frame): Bytes
  {
    f.command + "\n" + HeaderLines(HeadersAreEscaped(f.command), f.headers) + "\n" + BodyBytes(f.body) + "\0"
  }

  lemma {:induction false} HeaderLinesAppend(escape: bool, a: seq<Header>, b: seq<Header>)
    ensures HeaderLines(escape, a + b) == HeaderLines(escape, a) + HeaderLines(escape, b)
  {
    if a == [] {
      assert a + b == b;
    } else {
      assert (a + b)[1..] == a[1..] + b;
      HeaderLinesAppend(escape, a[1..], b);
    }
  }

  lemma EscapeIfSnoc(escape: bool, s: Bytes, i: nat)
    requires i < |s|
    ensures EscapeIf(escape, s[..i + 1]) == EscapeIf(escape, s[..i]) + EscapeIf(escape, [s[i]])
  {
    hide Escape;
    assert s[..i + 1] == s[..i] + [s[i]];
    EscapeAppend(s[..i], [s[i]]);
  }

  lemma HeaderLinesSnoc(escape: bool, hs: seq<Header>, i: nat)
    requires i < |hs|
    ensures HeaderLines(escape, hs[..i + 1]) == HeaderLines(escape, hs[..i]) + HeaderLine(escape, hs[i])
  {
    hide HeaderLine;
    var last := [hs[i]];
    assert HeaderLines(escape, last) == HeaderLine(escape, hs[i]);
    hide HeaderLines;
    assert hs[..i + 1] == hs[..i] + last;
    HeaderLinesAppend(escape, hs[..i], last);
  }

  method WriteEscaped(b: Byte, buffer: BytesMut, escape: bool)
    modifies buffer
    ensures buffer.data == old(buffer.data) + EscapeIf(escape, [b])
  {
    assert Escape([b]) == EscapeByte(b) + Escape([]);
    if b == '\r' && escape {
      buffer.PutSlice("\\r");
    } else if b == '\n' && escape {
      buffer.PutSlice("\\n");
    } else if b == ':' && escape {
      buffer.PutSlice("\\c");
    } else if b == '\\' && escape {
      buffer.PutSlice("\\\\");
    } else {
      buffer.PutU8(b);
    }
  }

  method WriteAllEscaped(s: Bytes, buffer: BytesMut, escape: bool)
    modifies buffer
    ensures buffer.data == old(buffer.data) + EscapeIf(escape, s)
  {
    for i := 0 to |s|
      invariant buffer.data == old(buffer.data) + EscapeIf(escape, s[..i])
    {
      hide EscapeIf;
      WriteEscaped(s[i], buffer, escape);
      EscapeIfSnoc(escape, s, i);
      Regroup(old(buffer.data), EscapeIf(escape, s[..i]), EscapeIf(escape, [s[i]]));
    }
    assert s[..|s|] == s;
  }

  method WriteHeader(h: Header, buffer: BytesMut, escape: bool)
    modifies buffer
    ensures buffer.data == old(buffer.data) + HeaderLine(escape, h)
  {
    WriteAllEscaped(h.key, buffer, escape);
    buffer.PutU8(':');
    WriteAllEscaped(h.value, buffer, escape);
    buffer.PutU8('\n');
  }

  method WriteHeaders(hs: seq<Header>, buffer: BytesMut, escape: bool)
    modifies buffer
    ensures buffer.data == old(buffer.data) + HeaderLines(escape, hs)
  {
    for i := 0 to |hs|
      invariant buffer.data == old(buffer.data) + HeaderLines(escape, hs[..i])
    {
      hide HeaderLine, HeaderLines;
      WriteHeader(hs[i], buffer, escape);
      HeaderLinesSnoc(escape, hs, i);
      Regroup(old(buffer.data), HeaderLines(escape, hs[..i]), HeaderLine(escape, hs[i]));
    }
    assert hs[..|hs|] == hs;
  }

  method Serialize(f: Frame, buffer: BytesMut)
    modifies buffer
    ensures buffer.data == old(buffer.data) + Serialized(f)
  {
    ghost var start := buffer.data;
    var escape := HeadersAreEscaped(f.command);
    buffer.PutSlice(f.command);
    buffer.PutU8('\n');
    Regroup(start, f.command, "\n");
    WriteHeaders(f.headers, buffer, escape);
    ghost var head := f.command + "\n" + HeaderLines(escape, f.headers);
    Regroup(start, f.command + "\n", HeaderLines(escape, f.headers));
    buffer.PutU8('\n');
    Regroup(start, head, "\n");
    if f.body.Some? {
      buffer.PutSlice(f.body.value);
    }
    Regroup(start, head + "\n", BodyBytes(f.body));
    buffer.PutU8('\0');
    Regroup(start, head + "\n" + BodyBytes(f.body), "\0");
  }

  /** The declared body length: the first `content-length` header, if it is a 32-bit number. */
  function GetContentLength(headers: seq<Header>): Option<U32>
  {
    if headers == [] then None
    else if headers[0].key == "content-length" then
      if Utf8.Valid(headers[0].value) then Decimal.ParseU32(headers[0].value) else None
    else GetContentLength(headers[1..])
  }

  function WireHeader(escape: bool, h: Header): Header
  {
    Header(EscapeIf(escape, h.key), EscapeIf(escape, h.value))
  }

  function WireHeaders(escape: bool, hs: seq<Header>): (ws: seq<Header>)
    ensures |ws| == |hs|
    ensures forall i :: 0 <= i < |hs| ==> ws[i] == WireHeader(escape, hs[i])
  {
    if hs == [] then [] else [WireHeader(escape, hs[0])] + WireHeaders(escape, hs[1..])
  }

  /** A body as a reader reports it: an empty one is absent unless its length was declared. */
  function ReportedBody(length: Option<U32>, body: Bytes): Option<Bytes>
  {
    if length.None? && body == [] then None else Some(body)
  }

  /** What a reader sees of a printed frame: escaped headers and a reported body. */
  function Wire(f: Frame): Frame
  {
    var hs := WireHeaders(HeadersAreEscaped(f.command), f.headers);
    Frame(f.command, hs, ReportedBody(GetContentLength(hs), BodyBytes(f.body)))
  }
}
