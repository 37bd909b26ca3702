/**
 * The frame format as a grammar, independent of the parser: which frames can be on the wire
 * and how they are spelled, each line ending being LF or CRLF. The parser accepts exactly this.
 */
module Grammar {
  import opened Octets
  import opened Frames
  import opened Parsing
  import opened Stability

  function Eol(crlf: bool): Bytes
  {
    if crlf then "\r\n" else "\n"
  }

  predicate CommandOk(c: Bytes)
  {
    c != [] && forall i :: 0 <= i < |c| ==> IsAlpha(c[i])
  }

  predicate KeyOk(k: Bytes)
  {
    k != [] && forall i :: 0 <= i < |k| ==> IsKeyByte(k[i])
  }

  predicate ValueOk(v: Bytes)
  {
    forall i :: 0 <= i < |v| ==> IsValueByte(v[i])
  }

  predicate HeaderOk(h: Header)
  {
    KeyOk(h.key) && ValueOk(h.value)
  }

  predicate HeadersOk(hs: seq<Header>)
  {
    forall i :: 0 <= i < |hs| ==> HeaderOk(hs[i])
  }

  predicate NulFree(b: Bytes)
  {
    forall i :: 0 <= i < |b| ==> NotNul(b[i])
  }

  /** The classes of octets that the format is made of. */
  lemma OctetClasses(s: Bytes)
    ensures CommandOk(s) <==> s != [] && forall i :: 0 <= i < |s| ==> 'A' <= s[i] <= 'Z' || 'a' <= s[i] <= 'z'
    ensures KeyOk(s) <==> s != [] && ':' !in s && '\r' !in s && '\n' !in s
    ensures ValueOk(s) <==> '\r' !in s && '\n' !in s
    ensures NulFree(s) <==> '\0' !in s
  {
  }

  /** A body of the declared length, or without one a body that ends at the first NUL. */
  predicate BodyOk(length: Option<U32>, body: Option<Bytes>)
  {
    match length
    case None => body.Some? ==> body.value != [] && NulFree(body.value)
    case Some(n) => body.Some? && |body.value| == n
  }

  /** Frames that have a spelling. */
  predicate WireOk(w: Frame)
  {
    CommandOk(w.command) && HeadersOk(w.headers) && BodyOk(GetContentLength(w.headers), w.body)
  }

  function RenderHeader(h: Header, crlf: bool): Bytes
  {
    h.key + (":" + (h.value + Eol(crlf)))
  }

  function RenderBlock(hs: seq<Header>, eols: seq<bool>): Bytes
    requires |eols| == |hs| + 1
  {
    if hs == [] then Eol(eols[0]) else RenderHeader(hs[0], eols[0]) + RenderBlock(hs[1..], eols[1..])
  }

  function RenderBody(body: Option<Bytes>): Bytes
  {
    BodyBytes(body) + "\0"
  }

  /** The spelling of a frame under one choice of line ending per line. */
  function Render(w: Frame, eols: seq<bool>): Bytes
    requires |eols| == |w.headers| + 2
  {
    (w.command + Eol(eols[0])) + (RenderBlock(w.headers, eols[1..]) + RenderBody(w.body))
  }

  // Completeness: every spelling parses back

  lemma LineEndingRender(crlf: bool, rest: Bytes)
    ensures LineEnding(Eol(crlf) + rest) == Done((), |Eol(crlf)|)
  {
  }

  lemma ValueLineRender(v: Bytes, crlf: bool, rest: Bytes)
    requires ValueOk(v)
    ensures ValueLine((v + Eol(crlf)) + rest) == Done(v, |v + Eol(crlf)|)
  {
    var s := (v + Eol(crlf)) + rest;
    SpanIs(IsValueByte, s, |v|);
    assert s[..|v|] == v;
    assert s[|v|..] == Eol(crlf) + rest;
    LineEndingRender(crlf, rest);
  }

  lemma HeaderRender(h: Header, crlf: bool, rest: Bytes)
    requires HeaderOk(h)
    ensures ParsedHeader(RenderHeader(h, crlf) + rest) == Done(h, |RenderHeader(h, crlf)|)
  {
    hide ValueLine, Eol;
    var s := RenderHeader(h, crlf) + rest;
    var n := |h.key|;
    SpanIs(IsKeyByte, s, n);
    assert s[..n] == h.key;
    assert s[n + 1..] == (h.value + Eol(crlf)) + rest;
    HeaderFromValue(s, n);
    ValueLineRender(h.value, crlf, rest);
  }

  lemma EmptyBlockRender(crlf: bool, rest: Bytes)
    ensures HeaderBlock(Eol(crlf) + rest) == Done([], |Eol(crlf)|)
  {
    var s := Eol(crlf) + rest;
    SpanIs(IsKeyByte, s, 0);
    assert ParsedHeader(s) == Fail;
    LineEndingRender(crlf, rest);
  }

  /** One more header in front of a block. */
  lemma BlockFromParts(s: Bytes, h: Header, n: nat, hs: seq<Header>, m: nat)
    requires ParsedHeader(s) == Done(h, n) && HeaderBlock(s[n..]) == Done(hs, m)
    ensures HeaderBlock(s) == Done([h] + hs, n + m)
  {
    hide ParsedHeader;
  }

  lemma {:induction false} BlockRender(hs: seq<Header>, eols: seq<bool>, rest: Bytes)
    requires HeadersOk(hs) && |eols| == |hs| + 1
    ensures HeaderBlock(RenderBlock(hs, eols) + rest) == Done(hs, |RenderBlock(hs, eols)|)
  {
    hide HeaderBlock, ParsedHeader, RenderHeader, Eol;
    if hs == [] {
      EmptyBlockRender(eols[0], rest);
    } else {
      var line, block := RenderHeader(hs[0], eols[0]), RenderBlock(hs[1..], eols[1..]);
      Regroup(line, block, rest);
      HeaderRender(hs[0], eols[0], block + rest);
      DropPrefix(line, block + rest);
      BlockRender(hs[1..], eols[1..], rest);
      BlockFromParts(line + (block + rest), hs[0], |line|, hs[1..], |block|);
      assert hs == [hs[0]] + hs[1..];
    }
  }

  lemma CommandRender(c: Bytes, crlf: bool, rest: Bytes)
    requires CommandOk(c)
    ensures CommandLine((c + Eol(crlf)) + rest) == Done(c, |c + Eol(crlf)|)
  {
    var s := (c + Eol(crlf)) + rest;
    SpanIs(IsAlpha, s, |c|);
    assert s[..|c|] == c;
    assert s[|c|..] == Eol(crlf) + rest;
    LineEndingRender(crlf, rest);
  }

  lemma BodyRender(length: Option<U32>, body: Option<Bytes>, rest: Bytes)
    requires BodyOk(length, body)
    ensures BodyEnd(length, RenderBody(body) + rest) == Done(body, |RenderBody(body)|)
  {
    var b := BodyBytes(body);
    var s := RenderBody(body) + rest;
    if length.None? {
      SpanIs(NotNul, s, |b|);
    }
    assert s[..|b|] == b;
    assert s[|b|..][0] == '\0';
  }

  /** A frame put together from the verdicts on its three parts. */
  lemma FrameFromParts(s: Bytes, w: Frame, n: nat, m: nat, k: nat)
    requires CommandLine(s) == Done(w.command, n)
    requires HeaderBlock(s[n..]) == Done(w.headers, m)
    requires BodyEnd(GetContentLength(w.headers), s[n..][m..]) == Done(w.body, k)
    ensures FrameCore(s) == Done(w, n + m + k)
  {
  }

  lemma FrameFromTexts(w: Frame, line: Bytes, block: Bytes, body: Bytes, rest: Bytes)
    requires CommandLine(line + (block + (body + rest))) == Done(w.command, |line|)
    requires HeaderBlock(block + (body + rest)) == Done(w.headers, |block|)
    requires BodyEnd(GetContentLength(w.headers), body + rest) == Done(w.body, |body|)
    ensures FrameCore((line + (block + body)) + rest) == Done(w, |line + (block + body)|)
  {
    hide CommandLine, HeaderBlock, BodyEnd, FrameCore;
    DropPrefix(line, block + (body + rest));
    DropPrefix(block, body + rest);
    FrameFromParts(line + (block + (body + rest)), w, |line|, |block|, |body|);
    Regroup(line, block + body, rest);
    Regroup(block, body, rest);
  }

  lemma ParserComplete(w: Frame, eols: seq<bool>, rest: Bytes)
    requires WireOk(w) && |eols| == |w.headers| + 2
    ensures FrameCore(Render(w, eols) + rest) == Done(w, |Render(w, eols)|)
  {
    var line := w.command + Eol(eols[0]);
    var block := RenderBlock(w.headers, eols[1..]);
    var body := RenderBody(w.body);
    CommandRender(w.command, eols[0], block + (body + rest));
    BlockRender(w.headers, eols[1..], body + rest);
    BodyRender(GetContentLength(w.headers), w.body, rest);
    FrameFromTexts(w, line, block, body, rest);
  }

  // Soundness: whatever parses is a spelling of the frame it parses to

  lemma ValueLineSound(s: Bytes) returns (crlf: bool)
    requires ValueLine(s).Done?
    ensures ValueOk(ValueLine(s).value)
    ensures s[..ValueLine(s).used] == ValueLine(s).value + Eol(crlf)
  {
    var n := Span(IsValueByte, s);
    crlf := s[n] == '\r';
    assert s[..ValueLine(s).used] == s[..n] + Eol(crlf);
  }

  lemma SplitAt(s: Bytes, n: nat, m: nat)
    requires n + 1 + m <= |s|
    ensures s[..n + 1 + m] == s[..n] + ([s[n]] + s[n + 1..][..m])
  {
  }

  lemma HeaderSound(s: Bytes) returns (crlf: bool)
    requires ParsedHeader(s).Done?
    ensures HeaderOk(ParsedHeader(s).value)
    ensures s[..ParsedHeader(s).used] == RenderHeader(ParsedHeader(s).value, crlf)
  {
    hide ValueLine, Eol;
    var n := Span(IsKeyByte, s);
    HeaderFromValue(s, n);
    hide ParsedHeader;
    crlf := ValueLineSound(s[n + 1..]);
    SplitAt(s, n, ValueLine(s[n + 1..]).used);
  }

  lemma RenderBlockCons(h: Header, hs: seq<Header>, crlf: bool, eols: seq<bool>)
    requires |eols| == |hs| + 1
    ensures RenderBlock([h] + hs, [crlf] + eols) == RenderHeader(h, crlf) + RenderBlock(hs, eols)
  {
    hide RenderHeader;
    assert ([h] + hs)[1..] == hs && ([crlf] + eols)[1..] == eols;
  }

  lemma EmptyBlockSound(s: Bytes) returns (eols: seq<bool>)
    requires HeaderBlock(s).Done? && !ParsedHeader(s).Done?
    ensures HeaderBlock(s).value == [] && |eols| == 1
    ensures s[..HeaderBlock(s).used] == RenderBlock([], eols)
  {
    hide ParsedHeader;
    eols := [s[0] == '\r'];
  }

  lemma BlockParts(s: Bytes)
    requires HeaderBlock(s).Done? && ParsedHeader(s).Done?
    ensures HeaderBlock(s[ParsedHeader(s).used..]).Done?
    ensures var h, rest := ParsedHeader(s), HeaderBlock(s[ParsedHeader(s).used..]);
            HeaderBlock(s) == Done([h.value] + rest.value, h.used + rest.used)
  {
    hide ParsedHeader;
  }

  lemma {:induction false} BlockSound(s: Bytes) returns (eols: seq<bool>)
    requires HeaderBlock(s).Done?
    ensures HeadersOk(HeaderBlock(s).value) && |eols| == |HeaderBlock(s).value| + 1
    ensures s[..HeaderBlock(s).used] == RenderBlock(HeaderBlock(s).value, eols)
    decreases |s|
  {
    hide HeaderBlock, ParsedHeader, RenderHeader, RenderBlock;
    if ParsedHeader(s).Done? {
      BlockParts(s);
      var h, n := ParsedHeader(s).value, ParsedHeader(s).used;
      var hs, m := HeaderBlock(s[n..]).value, HeaderBlock(s[n..]).used;
      var crlf := HeaderSound(s);
      var more := BlockSound(s[n..]);
      eols := [crlf] + more;
      RenderBlockCons(h, hs, crlf, more);
      assert s[..n + m] == s[..n] + s[n..][..m];
    } else {
      eols := EmptyBlockSound(s);
    }
  }

  lemma CommandSound(s: Bytes) returns (crlf: bool)
    requires CommandLine(s).Done?
    ensures CommandOk(CommandLine(s).value)
    ensures s[..CommandLine(s).used] == CommandLine(s).value + Eol(crlf)
  {
    var n := Span(IsAlpha, s);
    crlf := s[n] == '\r';
    assert s[..CommandLine(s).used] == s[..n] + Eol(crlf);
  }

  lemma BodySound(length: Option<U32>, s: Bytes)
    requires BodyEnd(length, s).Done?
    ensures BodyOk(length, BodyEnd(length, s).value)
    ensures s[..BodyEnd(length, s).used] == RenderBody(BodyEnd(length, s).value)
  {
    var n := Body(length, s).used;
    assert s[..n + 1] == s[..n] + "\0";
  }

  lemma ThreeParts(s: Bytes, n: nat, m: nat, k: nat)
    requires n + m + k <= |s|
    ensures s[..n + m + k] == s[..n] + (s[n..][..m] + s[n..][m..][..k])
  {
  }

  lemma {:induction false} ParserSound(s: Bytes) returns (eols: seq<bool>)
    requires FrameCore(s).Done?
    ensures WireOk(FrameCore(s).value) && |eols| == |FrameCore(s).value.headers| + 2
    ensures s[..FrameCore(s).used] == Render(FrameCore(s).value, eols)
  {
    hide CommandLine, HeaderBlock, BodyEnd, Eol, RenderBlock, RenderBody;
    var n := CommandLine(s).used;
    var hs, m := HeaderBlock(s[n..]).value, HeaderBlock(s[n..]).used;
    var s2 := s[n..][m..];
    var k := BodyEnd(GetContentLength(hs), s2).used;
    ThreeParts(s, n, m, k);
    var crlf := CommandSound(s);
    var more := BlockSound(s[n..]);
    BodySound(GetContentLength(hs), s2);
    eols := [crlf] + more;
    assert eols[1..] == more;
  }

  ghost predicate Spells(text: Bytes, w: Frame)
  {
    exists eols: seq<bool> :: |eols| == |w.headers| + 2 && text == Render(w, eols)
  }

  lemma SpelledParses(s: Bytes, w: Frame, n: nat)
    requires WireOk(w) && n <= |s| && Spells(s[..n], w)
    ensures FrameCore(s) == Done(w, n)
  {
    var eols: seq<bool> :| |eols| == |w.headers| + 2 && s[..n] == Render(w, eols);
    assert s == s[..n] + s[n..];
    ParserComplete(w, eols, s[n..]);
  }

  /** The parser accepts exactly the grammar: soundness and completeness in one statement. */
  lemma {:induction false} ParserIffGrammar(s: Bytes, w: Frame, n: nat)
    ensures FrameCore(s) == Done(w, n) <==> WireOk(w) && n <= |s| && Spells(s[..n], w)
  {
    if FrameCore(s) == Done(w, n) {
      var eols := ParserSound(s);
    }
    if WireOk(w) && n <= |s| && Spells(s[..n], w) {
      SpelledParses(s, w, n);
    }
  }

  /** No octet string is two spellings: the frame it parses to and its length are determined. */
  lemma RenderUnambiguous(v: Frame, w: Frame, vEols: seq<bool>, wEols: seq<bool>, x: Bytes, y: Bytes)
    requires WireOk(v) && |vEols| == |v.headers| + 2
    requires WireOk(w) && |wEols| == |w.headers| + 2
    requires Render(v, vEols) + x == Render(w, wEols) + y
    ensures v == w && x == y
  {
    ParserComplete(v, vEols, x);
    ParserComplete(w, wEols, y);
    var s := Render(v, vEols) + x;
    assert x == s[|Render(v, vEols)|..];
    assert y == s[|Render(w, wEols)|..];
  }

  lemma WholeFrame(t: Bytes, w: Frame)
    requires FrameCore(t) == Done(w, |t|) && t != [] && IsAlpha(t[0])
    ensures ParsedFrame(t) == Done(w, |t|)
  {
    hide FrameCore;
    assert t[0..] == t && t[|t|..] == [];
  }

  /** Line endings may be LF or CRLF in any mixture without changing what is read. */
  lemma {:induction false} EolInsensitive(s: Bytes, eols: seq<bool>)
    requires FrameCore(s).Done? && |eols| == |FrameCore(s).value.headers| + 2
    ensures var w := FrameCore(s).value;
            ParsedFrame(Render(w, eols)) == Done(w, |Render(w, eols)|)
  {
    var w := FrameCore(s).value;
    var t := Render(w, eols);
    var asRead := ParserSound(s);
    assert IsAlpha(w.command[0]) && t[0] == w.command[0];
    assert t + [] == t;
    ParserComplete(w, eols, []);
    WholeFrame(t, w);
  }

  // The printer

  function AllLf(n: nat): (eols: seq<bool>)
    ensures |eols| == n && forall i :: 0 <= i < n ==> !eols[i]
  {
    seq(n, _ => false)
  }

  lemma HeaderLineIsRender(escape: bool, h: Header)
    ensures HeaderLine(escape, h) == RenderHeader(WireHeader(escape, h), false)
  {
    hide EscapeIf;
  }

  lemma {:induction false} HeaderLinesAreBlock(escape: bool, hs: seq<Header>)
    ensures HeaderLines(escape, hs) + "\n" == RenderBlock(WireHeaders(escape, hs), AllLf(|hs| + 1))
  {
    if hs != [] {
      hide HeaderLine, RenderHeader, RenderBlock;
      HeaderLinesAreBlock(escape, hs[1..]);
      HeaderLineIsRender(escape, hs[0]);
      var h, ws := WireHeader(escape, hs[0]), WireHeaders(escape, hs[1..]);
      RenderBlockCons(h, ws, false, AllLf(|hs|));
      assert AllLf(|hs| + 1) == [false] + AllLf(|hs|);
      Regroup(HeaderLine(escape, hs[0]), HeaderLines(escape, hs[1..]), "\n");
    }
  }

  /** Printing is one way of spelling the wire form: all lines end in LF. */
  lemma SerializedIsRender(f: Frame)
    ensures Serialized(f) == Render(Wire(f), AllLf(|f.headers| + 2))
  {
    var escape := HeadersAreEscaped(f.command);
    HeaderLinesAreBlock(escape, f.headers);
    assert AllLf(|f.headers| + 2)[1..] == AllLf(|f.headers| + 1);
    var line, lines, body := f.command + "\n", HeaderLines(escape, f.headers), BodyBytes(f.body);
    assert BodyBytes(Wire(f).body) == body;
    Regroup(line + lines + "\n", body, "\0");
    Regroup(line, lines, "\n");
    Regroup(line, lines + "\n", body + "\0");
  }

  /** A printed frame reads back as its wire form exactly when that form has a spelling. */
  lemma {:induction false} SerializedParsesIff(f: Frame, rest: Bytes)
    ensures FrameCore(Serialized(f) + rest) == Done(Wire(f), |Serialized(f)|) <==> WireOk(Wire(f))
  {
    SerializedIsRender(f);
    if WireOk(Wire(f)) {
      ParserComplete(Wire(f), AllLf(|f.headers| + 2), rest);
    }
    if FrameCore(Serialized(f) + rest) == Done(Wire(f), |Serialized(f)|) {
      var eols := ParserSound(Serialized(f) + rest);
    }
  }

  /** A printed frame cut short anywhere is waited for, never refused or misread. */
  lemma {:induction false} SerializedPrefixWaits(f: Frame, n: nat)
    requires WireOk(Wire(f)) && n < |Serialized(f)|
    ensures FrameCore(Serialized(f)[..n]) == Incomplete
  {
    hide FrameCore, Serialized, WireOk, Wire;
    var s := Serialized(f);
    SerializedParsesIff(f, []);
    assert s + [] == s == s[..n] + s[n..];
    FrameCoreExtends(s[..n], s[n..]);
  }
}
