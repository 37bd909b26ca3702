/** Exactly which messages come back, whatever their printed text parses to. */
module ComingBack {
  import opened Octets
  import opened Escaping
  import opened Frames
  import opened Parsing
  import opened Grammar
  import opened Messages
  import opened RoundTrip
  import opened Exactness
  import Utf8

  // What a printed frame that is used up has to look like

  /** The verdict on the rest decides the verdict on a frame whose command line has been read. */
  lemma CoreOfLine(line: Bytes, rest: Bytes, command: Bytes)
    requires CommandLine(line + rest) == Done(command, |line|)
    requires FrameCore(line + rest).Done?
    ensures var p, block := FrameCore(line + rest), HeaderBlock(rest);
            && block.Done? && p.value.command == command && p.value.headers == block.value
            && var end := BodyEnd(GetContentLength(block.value), rest[block.used..]);
               end.Done? && p.value.body == end.value && p.used == |line| + block.used + end.used
  {
    hide CommandLine, HeaderBlock, BodyEnd, GetContentLength;
    DropPrefix(line, rest);
  }

  /** Text up to a first octet that is not an end of line is a header or else no header block at all. */
  lemma HeaderNeeded(s: Bytes)
    requires HeaderBlock(s).Done? && s != [] && !IsEol(s[0])
    ensures ParsedHeader(s).Done? && HeaderBlock(s[ParsedHeader(s).used..]).Done?
    ensures HeaderBlock(s).value == [ParsedHeader(s).value] + HeaderBlock(s[ParsedHeader(s).used..]).value
  {
    hide ParsedHeader;
  }

  lemma NoNameNoHeader(h: Header, crlf: bool, rest: Bytes)
    requires h.key == []
    ensures ParsedHeader(RenderHeader(h, crlf) + rest) == Fail
  {
    var s := RenderHeader(h, crlf) + rest;
    assert s[0] == ':';
    SpanIs(IsKeyByte, s, 0);
  }

  /** If headers whose only fault can be an empty key are followed by the end of the block, none is empty. */
  lemma {:induction false} BlockNeedsNames(ws: seq<Header>, eols: seq<bool>, rest: Bytes)
    requires |eols| == |ws| + 1
    requires forall i :: 0 <= i < |ws| && ws[i].key != [] ==> HeaderOk(ws[i])
    requires HeaderBlock(RenderBlock(ws, eols) + rest).Done?
    ensures HeadersOk(ws)
  {
    hide HeaderBlock, ParsedHeader, RenderHeader, Eol, HeaderOk;
    if ws != [] {
      var line, block := RenderHeader(ws[0], eols[0]), RenderBlock(ws[1..], eols[1..]);
      Regroup(line, block, rest);
      LineStarts(ws[0], eols[0], block + rest);
      HeaderNeeded(line + (block + rest));
      if ws[0].key == [] {
        NoNameNoHeader(ws[0], eols[0], block + rest);
      } else {
        HeaderRender(ws[0], eols[0], block + rest);
        DropPrefix(line, block + rest);
        BlockNeedsNames(ws[1..], eols[1..], rest);
        assert ws == [ws[0]] + ws[1..];
      }
    }
  }

  lemma LineStarts(h: Header, crlf: bool, rest: Bytes)
    requires h.key != [] ==> HeaderOk(h)
    ensures RenderHeader(h, crlf) + rest != [] && !IsEol((RenderHeader(h, crlf) + rest)[0])
  {
    if h.key != [] {
      assert IsKeyByte(h.key[0]);
      assert (RenderHeader(h, crlf) + rest)[0] == h.key[0];
    }
  }

  /** A body and its NUL are used up exactly when the body is delimited. */
  lemma BodyUsedUp(length: Option<U32>, b: Bytes)
    ensures var end := BodyEnd(length, b + "\0");
            end.Done? && end.used == |b| + 1 <==> BodyOk(length, ReportedBody(length, b))
  {
    var s := b + "\0";
    if length.None? {
      NulEnds(b);
    } else if length.value <= |b| {
      assert s[length.value..][0] == s[length.value];
    } else if length.value == |s| {
      assert s[length.value..] == [];
    }
  }

  lemma NulEnds(b: Bytes)
    ensures Span(NotNul, b + "\0") == |b| <==> NulFree(b)
    ensures Span(NotNul, b + "\0") <= |b|
    ensures (b + "\0")[Span(NotNul, b + "\0")] == '\0'
  {
    var s := b + "\0";
    assert !NotNul(s[|b|]);
    if NulFree(b) {
      SpanIs(NotNul, s, |b|);
    }
    if Span(NotNul, s) == |b| {
      assert forall i :: 0 <= i < |b| ==> b[i] == s[i];
    }
  }

  /** The parts of a printed frame. */
  lemma PrintedParts(f: Frame) returns (line: Bytes, block: Bytes, eols: seq<bool>)
    ensures |eols| == |f.headers| + 1 && block == RenderBlock(Wire(f).headers, eols)
    ensures Serialized(f) == line + (block + (BodyBytes(f.body) + "\0"))
    ensures CommandOk(f.command) ==>
              CommandLine(line + (block + (BodyBytes(f.body) + "\0"))) == Done(f.command, |line|)
  {
    hide CommandLine, RenderBlock, Serialized;
    SerializedIsRender(f);
    eols := AllLf(|f.headers| + 2)[1..];
    line, block := f.command + Eol(AllLf(|f.headers| + 2)[0]), RenderBlock(Wire(f).headers, eols);
    if CommandOk(f.command) {
      CommandRender(f.command, AllLf(|f.headers| + 2)[0], block + (BodyBytes(f.body) + "\0"));
    }
  }

  /** With readable headers, a printed frame that is used up is in the grammar. */
  lemma UsedUpIsWireOk(f: Frame)
    requires CommandOk(f.command) && HeadersOk(Wire(f).headers)
    requires FrameCore(Serialized(f)).Done? && FrameCore(Serialized(f)).used == |Serialized(f)|
    ensures WireOk(Wire(f))
  {
    hide FrameCore, Serialized, CommandLine, HeaderBlock, RenderBlock, BodyEnd, CommandOk, HeadersOk, BodyOk;
    hide ReportedBody, GetContentLength, HeadersAreEscaped;
    var line, block, eols := PrintedParts(f);
    var ws, body := Wire(f).headers, BodyBytes(f.body) + "\0";
    CoreOfLine(line, block + body, f.command);
    BlockRender(ws, eols, body);
    DropPrefix(block, body);
    BodyUsedUp(GetContentLength(ws), BodyBytes(f.body));
  }

  lemma {:induction false} EscapedKeyEmpty(key: Bytes)
    ensures Escape(key) == [] <==> key == []
  {
    EscapeBreaksNoLine(key);
  }

  lemma EscapedHeadersNeedNames(f: Frame)
    requires HeadersAreEscaped(f.command) && CommandOk(f.command) && FrameCore(Serialized(f)).Done?
    ensures HeadersOk(Wire(f).headers)
  {
    hide FrameCore, Serialized, CommandLine, HeaderBlock, RenderBlock, BodyEnd, CommandOk, HeadersOk, HeaderOk;
    hide HeadersAreEscaped, GetContentLength, ReportedBody;
    var line, block, eols := PrintedParts(f);
    var ws, body := Wire(f).headers, BodyBytes(f.body) + "\0";
    CoreOfLine(line, block + body, f.command);
    forall i | 0 <= i < |ws| && ws[i].key != [] ensures HeaderOk(ws[i]) {
      EscapedKeyEmpty(f.headers[i].key);
      EscapedHeaderOk(f.headers[i]);
    }
    BlockNeedsNames(ws, eols, body);
  }

  // Unescaped frames: a CONNECT

  /** A header line printed without escaping is cut at the first line break of its value, and stays text. */
  lemma RawLine(h: Header, crlf: bool, rest: Bytes)
    requires KeyOk(h.key) && Utf8.Valid(h.value)
    ensures var r := ParsedHeader(RenderHeader(h, crlf) + rest);
            r.Done? ==> r.value.key == h.key && Utf8.Valid(r.value.value)
  {
    hide ValueLine, Eol, Utf8.Valid;
    var s := RenderHeader(h, crlf) + rest;
    var n := |h.key|;
    SpanIs(IsKeyByte, s, n);
    assert s[..n] == h.key;
    assert s[n + 1..] == (h.value + Eol(crlf)) + rest;
    HeaderFromValue(s, n);
    RawValue(h.value, crlf, rest);
  }

  lemma RawValue(v: Bytes, crlf: bool, rest: Bytes)
    requires Utf8.Valid(v)
    ensures var r := ValueLine((v + Eol(crlf)) + rest);
            r.Done? ==> Utf8.Valid(r.value)
  {
    hide Utf8.Valid, LineEnding;
    var s := (v + Eol(crlf)) + rest;
    var n := Span(IsValueByte, v);
    SpanIs(IsValueByte, s, n);
    assert s[..n] == v[..n];
    Utf8.CutIsValid(v, n);
  }

  /** A key that is printed with text, behind readable headers with other keys, is read as holding text. */
  lemma {:induction false} RawKeyFound(hs: seq<Header>, eols: seq<bool>, rest: Bytes, i: nat)
    requires |eols| == |hs| + 1 && i < |hs|
    requires KeyOk(hs[i].key) && Utf8.Valid(hs[i].value)
    requires forall j :: 0 <= j < i ==> HeaderOk(hs[j]) && hs[j].key != hs[i].key
    requires HeaderBlock(RenderBlock(hs, eols) + rest).Done?
    ensures FetchRaw(HeaderBlock(RenderBlock(hs, eols) + rest).value, hs[i].key).Some?
  {
    hide HeaderBlock, ParsedHeader, RenderHeader, Eol, HeaderOk, Utf8.Valid;
    var line, block := RenderHeader(hs[0], eols[0]), RenderBlock(hs[1..], eols[1..]);
    Regroup(line, block, rest);
    var s := line + (block + rest);
    RawLineStarts(hs[0], eols[0], block + rest);
    HeaderNeeded(s);
    var first, more := ParsedHeader(s).value, HeaderBlock(s[ParsedHeader(s).used..]).value;
    assert ([first] + more)[1..] == more;
    if i == 0 {
      RawLine(hs[0], eols[0], block + rest);
    } else {
      HeaderRender(hs[0], eols[0], block + rest);
      DropPrefix(line, block + rest);
      RawKeyFound(hs[1..], eols[1..], rest, i - 1);
    }
  }

  lemma RawLineStarts(h: Header, crlf: bool, rest: Bytes)
    requires KeyOk(h.key) || HeaderOk(h)
    ensures RenderHeader(h, crlf) + rest != [] && !IsEol((RenderHeader(h, crlf) + rest)[0])
  {
    assert IsKeyByte(h.key[0]);
    assert (RenderHeader(h, crlf) + rest)[0] == h.key[0];
  }

  // What coming back requires

  /** The printed message is parsed as a whole frame, and that is read as the message in its normal form. */
  ghost predicate ComesBack(m: Message<ToServer>)
  {
    var s := Serialized(ToFrame(m));
    var p := FrameCore(s);
    p.Done? && p.used == |s| && ToClientMsg(p.value) == Ok(Received(m))
  }

  /** An optional field that reads as absent was not there to be read. */
  lemma ReadAbsent(c: ToServer, hs: seq<Header>, body: Option<Bytes>, i: nat)
    requires ReadClient(KindOf(c), hs, body) == Ok(c)
    requires i < |TypedFields(c)| && TypedFields(c)[i].value.None?
    ensures FetchAs(CommandOf(c), hs, TypedFields(c)[i].key).None?
  {
    hide Fetch, FetchRaw, HeadersAreEscaped, ParseHeartbeat, OptionalHeaders, PrintHeartbeat, PrintAck;
    KindOfCommand(c);
  }

  lemma NoShadowNeeded(m: Message<ToServer>)
    requires ToClientMsg(Wire(ToFrame(m))) == Ok(Received(m))
    ensures NoShadow(m)
  {
    var c := ReceivedContent(m);
    KindOfCommand(m.content);
    assert CommandOf(c) == CommandOf(m.content) && KindOf(c) == KindOf(m.content);
    assert TypedFields(c) == TypedFields(m.content);
    hide ReadClient, HeadersOf, WireHeaders, HeadersAreEscaped, ReceivedContent, FetchRaw, Fetch, GetContentLength;
    hide ReportedBody, CommandOf, KindOf, TypedFields, ClientKindOf, Others, FieldsOf;
    forall i | 0 <= i < |TypedFields(m.content)| && TypedFields(m.content)[i].value.None?
      ensures FetchRaw(HeadersOf(m), TypedFields(m.content)[i].key).None?
    {
      ReadAbsent(c, WireHeadersOf(m), Wire(ToFrame(m)).body, i);
      TypedKeysPlain(m.content, i);
      FetchWire(HeadersOf(m), TypedFields(m.content)[i].key);
    }
  }

  lemma TextNeeded(m: Message<ToServer>)
    requires m.content.Send? && ToClientMsg(Wire(ToFrame(m))).Ok?
    ensures TextHeaders(SendOthers(m))
  {
    hide HeadersOf, WireHeaders, HeadersAreEscaped, Fetch, GetContentLength, ReportedBody, Others, FieldsOf;
    hide PlainKeys;
    hide AllToText, ClientKindOf, CommandOf, TextHeaders;
    KindOfCommand(m.content);
    ExpectedKeysPlain(IsSend);
    OthersWire(true, HeadersOf(m), ExpectedKeys(IsSend));
    AllToTextNeedsText(SendOthers(m));
  }

  lemma NotWellFormed(m: Message<ToServer>)
    requires TextOk(m.content) && ToClientMsg(Wire(ToFrame(m))) == Ok(Received(m))
    ensures WellFormed(m)
  {
    hide ToClientMsg, Wire, ToFrame, Received, NoShadow, TextHeaders, SendOthers;
    NoShadowNeeded(m);
    if m.content.Send? {
      TextNeeded(m);
    }
  }

  ghost predicate AbsentKey(c: ToServer, key: Bytes)
  {
    exists i :: 0 <= i < |TypedFields(c)| && TypedFields(c)[i].key == key && TypedFields(c)[i].value.None?
  }

  /** Where a header has the key of an absent field, it holds text. */
  ghost predicate ShadowsAreText(m: Message<ToServer>)
  {
    forall i :: 0 <= i < |HeadersOf(m)| && AbsentKey(m.content, HeadersOf(m)[i].key) ==>
      Utf8.Valid(HeadersOf(m)[i].value)
  }

  lemma {:induction false} PresentHolds(fields: seq<Field>, j: nat) returns (k: nat)
    requires j < |Present(fields)|
    ensures k < |fields| && fields[k].value.Some?
    ensures Present(fields)[j] == Header(fields[k].key, fields[k].value.value)
  {
    if fields[0].value.Some? && j == 0 {
      k := 0;
    } else {
      var n := |HeaderIfSome(fields[0])|;
      k := PresentHolds(fields[1..], j - n);
      k := k + 1;
    }
  }

  lemma {:induction false} FreshHolds(existing: seq<Header>, extra: seq<Header>, j: nat)
    requires j < |Fresh(existing, extra)|
    ensures !KeyIn(existing, Fresh(existing, extra)[j].key)
  {
    hide KeyIn;
    var n := if KeyIn(existing, extra[0].key) then 0 else 1;
    if j >= n {
      FreshHolds(existing, extra[1..], j - n);
    }
  }

  /** A header of a CONNECT with the key of a field that is present is that field's header. */
  lemma TypedHeaderIs(m: Message<ToServer>, j: nat, i: nat)
    requires m.content.Connect? && j < |HeadersOf(m)| && i < |TypedFields(m.content)|
    requires TypedFields(m.content)[i].value.Some? && HeadersOf(m)[j].key == TypedFields(m.content)[i].key
    ensures HeadersOf(m)[j].value == TypedFields(m.content)[i].value.value
  {
    hide TypedFields, Present, Fresh, KeyIn, Find;
    var fields := TypedFields(m.content);
    var own := Present(fields);
    if j < |own| {
      var k := PresentHolds(fields, j);
      if k < i {
        TypedKeysDistinct(m.content, i, k);
      } else if i < k {
        TypedKeysDistinct(m.content, k, i);
      }
    } else {
      FreshHolds(own, m.extraHeaders, j - |own|);
      TypedFieldFound(m.content, i);
      FindIff(own, fields[i].key);
      assert false;
    }
  }

  lemma TypedFieldFound(c: ToServer, i: nat)
    requires i < |TypedFields(c)| && TypedFields(c)[i].value.Some?
    ensures Find(Present(TypedFields(c)), TypedFields(c)[i].key).Some?
  {
    hide TypedFields, Present, Find;
    forall j | 0 <= j < i ensures TypedFields(c)[j].key != TypedFields(c)[i].key {
      TypedKeysDistinct(c, i, j);
    }
    FindPresent(TypedFields(c), i, []);
    var own := Present(TypedFields(c));
    assert own + [] == own;
  }

  lemma {:induction false} FoundValueOk(hs: seq<Header>, key: Bytes)
    requires HeadersOk(hs) && Find(hs, key).Some?
    ensures ValueOk(Find(hs, key).value)
  {
    assert HeaderOk(hs[0]);
    if hs[0].key != key {
      FoundValueOk(hs[1..], key);
    }
  }

  /** What a CONNECT's fields are read from has no line breaks, so neither have the fields. */
  lemma ConnectValueOk(c: ToServer, hs: seq<Header>, i: nat)
    requires c.Connect? && ReadConnect(hs) == Ok(c) && HeadersOk(hs)
    requires i < |TypedFields(c)| && TypedFields(c)[i].value.Some?
    ensures HeaderOk(Header(TypedFields(c)[i].key, TypedFields(c)[i].value.value))
  {
    hide Find, HeadersOk, ValueOk, Utf8.Valid, PrintHeartbeat, ParseHeartbeat, KeyOk;
    ConnectKeyOk(c, i);
    if c.heartbeat.Some? {
      HeartbeatOk(c.heartbeat.value);
    }
    if TypedFields(c)[i].key != "heart-beat" {
      assert Find(hs, TypedFields(c)[i].key) == TypedFields(c)[i].value;
      FoundValueOk(hs, TypedFields(c)[i].key);
    }
  }

  function ConnectKeys(): seq<Bytes>
  {
    ["accept-version", "host", "login", "heart-beat", "passcode"]
  }

  lemma ConnectKeysOk(i: nat)
    requires i < 5
    ensures KeyOk(ConnectKeys()[i])
  {
  }

  lemma ConnectKeyOk(c: ToServer, i: nat)
    requires c.Connect? && i < |TypedFields(c)|
    ensures i < 5 && KeyOk(TypedFields(c)[i].key) && TypedFields(c)[i].key == ConnectKeys()[i]
  {
    hide KeyOk, PrintHeartbeat;
    ConnectKeysOk(i);
  }

  lemma HeartbeatOk(hb: (U32, U32))
    ensures ValueOk(PrintHeartbeat(hb))
  {
    hide PrintHeartbeat, Utf8.Valid;
    HeartbeatIsAscii(hb);
  }

  lemma ConnectReads(m: Message<ToServer>)
    requires m.content.Connect? && ComesBack(m)
    ensures var hs, keys := FrameCore(Serialized(ToFrame(m))).value.headers, ExpectedKeys(IsConnect);
            && HeadersOk(hs) && ReadConnect(hs) == Ok(m.content) && Others(hs, keys) == Others(HeadersOf(m), keys)
  {
    hide FrameCore, Serialized, CommandLine, HeaderBlock, RenderBlock, BodyEnd, HeadersOk, CommandOk;
    hide ReadConnect, Others, HeadersOf, GetContentLength, ReportedBody, ExpectedKeys;
    var f := ToFrame(m);
    var line, block, eols := PrintedParts(f);
    CommandsOk(m.content);
    CoreOfLine(line, block + (BodyBytes(f.body) + "\0"), f.command);
    var asRead := ParserSound(Serialized(f));
    var own := Others(HeadersOf(m), ExpectedKeys(IsConnect));
    assert WireHeaders(false, own) == own;
  }

  lemma ConnectHeaderOk(m: Message<ToServer>, j: nat)
    requires m.content.Connect? && ComesBack(m) && j < |HeadersOf(m)| && !AbsentKey(m.content, HeadersOf(m)[j].key)
    ensures HeaderOk(HeadersOf(m)[j])
  {
    ConnectReads(m);
    hide ComesBack, HeadersOf, ReadConnect, Others, HeaderOk, FrameCore, ToFrame, Serialized;
    var hs, ps, keys := HeadersOf(m), FrameCore(Serialized(ToFrame(m))).value.headers, ExpectedKeys(IsConnect);
    if hs[j].key in keys {
      var i := KeyOfField(m.content, hs[j].key);
      hide TypedFields, ExpectedKeys;
      TypedHeaderIs(m, j, i);
      ConnectValueOk(m.content, ps, i);
    } else {
      hide TypedFields, ExpectedKeys;
      OthersHas(hs, keys, j);
      OthersOf(ps, keys);
      assert hs[j] in ps;
    }
  }

  lemma KeyOfField(c: ToServer, key: Bytes) returns (i: nat)
    requires c.Connect? && key in ExpectedKeys(IsConnect)
    ensures i < |TypedFields(c)| && TypedFields(c)[i].key == key
  {
    i := if key == "accept-version" then 0 else if key == "host" then 1 else if key == "login" then 2
         else if key == "heart-beat" then 3 else 4;
  }

  /** The first of the headers with the key of an absent field. */
  lemma {:induction false} FirstAbsentKey(c: ToServer, hs: seq<Header>, n: nat) returns (k: nat)
    requires n < |hs| && AbsentKey(c, hs[n].key)
    ensures k <= n && AbsentKey(c, hs[k].key) && forall j :: 0 <= j < k ==> !AbsentKey(c, hs[j].key)
    decreases n
  {
    hide AbsentKey;
    if j :| 0 <= j < n && AbsentKey(c, hs[j].key) {
      k := FirstAbsentKey(c, hs, j);
    } else {
      k := n;
    }
  }

  /** The header block of a CONNECT that comes back, as it was printed. */
  lemma ConnectBlock(m: Message<ToServer>) returns (eols: seq<bool>, rest: Bytes)
    requires m.content.Connect? && ComesBack(m)
    ensures |eols| == |HeadersOf(m)| + 1
    ensures var block := HeaderBlock(RenderBlock(HeadersOf(m), eols) + rest);
            block.Done? && block.value == FrameCore(Serialized(ToFrame(m))).value.headers
  {
    hide FrameCore, Serialized, CommandLine, HeaderBlock, RenderBlock, BodyEnd, CommandOk, HeadersOf;
    hide HeadersAreEscaped;
    hide GetContentLength, ReportedBody, CommandOf, ToClientMsg, Received;
    var f := ToFrame(m);
    var line, text;
    line, text, eols := PrintedParts(f);
    rest := BodyBytes(f.body) + "\0";
    CommandsOk(m.content);
    KindOfCommand(m.content);
    assert WireHeaders(false, HeadersOf(m)) == HeadersOf(m);
    CoreOfLine(line, text + rest, f.command);
  }

  lemma ShadowIsRead(m: Message<ToServer>, k: nat)
    requires m.content.Connect? && ComesBack(m) && k < |HeadersOf(m)|
    requires KeyOk(HeadersOf(m)[k].key) && Utf8.Valid(HeadersOf(m)[k].value)
    requires forall j :: 0 <= j < k ==> HeaderOk(HeadersOf(m)[j]) && HeadersOf(m)[j].key != HeadersOf(m)[k].key
    ensures FetchRaw(FrameCore(Serialized(ToFrame(m))).value.headers, HeadersOf(m)[k].key).Some?
  {
    hide FrameCore, Serialized, HeaderBlock, RenderBlock, HeaderOk, ToFrame, HeadersOf, ComesBack, KeyOk, FetchRaw;
    hide Utf8.Valid;
    var eols, rest := ConnectBlock(m);
    RawKeyFound(HeadersOf(m), eols, rest, k);
  }

  lemma AbsentIsRead(m: Message<ToServer>, key: Bytes)
    requires m.content.Connect? && ComesBack(m) && AbsentKey(m.content, key)
    ensures KeyOk(key) && FetchRaw(FrameCore(Serialized(ToFrame(m))).value.headers, key).None?
  {
    var i :| 0 <= i < |TypedFields(m.content)| && TypedFields(m.content)[i].key == key
             && TypedFields(m.content)[i].value.None?;
    ConnectKeyOk(m.content, i);
    KindOfCommand(m.content);
    ConnectReads(m);
    hide FrameCore, Serialized, ReadConnect, ToFrame, ComesBack, KeyOk, TypedFields, FetchRaw, HeadersAreEscaped;
    hide CommandOf;
    ReadAbsent(m.content, FrameCore(Serialized(ToFrame(m))).value.headers, None, i);
  }

  /** If a CONNECT comes back, none of its headers has the key of an absent field. */
  lemma ConnectKeysApart(m: Message<ToServer>, n: nat)
    requires m.content.Connect? && ShadowsAreText(m) && ComesBack(m) && n < |HeadersOf(m)|
    ensures !AbsentKey(m.content, HeadersOf(m)[n].key)
  {
    hide ComesBack, HeadersOf, AbsentKey, HeaderOk, KeyOk, FetchRaw, Utf8.Valid, FrameCore, Serialized, ToFrame;
    if AbsentKey(m.content, HeadersOf(m)[n].key) {
      var k := FirstAbsentKey(m.content, HeadersOf(m), n);
      forall j | 0 <= j < k ensures HeaderOk(HeadersOf(m)[j]) {
        ConnectHeaderOk(m, j);
      }
      AbsentIsRead(m, HeadersOf(m)[k].key);
      ShadowIsRead(m, k);
      assert false;
    }
  }

  lemma ConnectHeadersOk(m: Message<ToServer>)
    requires m.content.Connect? && ShadowsAreText(m) && ComesBack(m)
    ensures HeadersOk(Wire(ToFrame(m)).headers)
  {
    hide ComesBack, HeaderOk, HeadersOf, AbsentKey, HeadersAreEscaped, GetContentLength, ReportedBody;
    KindOfCommand(m.content);
    assert Wire(ToFrame(m)).headers == HeadersOf(m);
    forall j | 0 <= j < |HeadersOf(m)| ensures HeaderOk(HeadersOf(m)[j]) {
      ConnectKeysApart(m, j);
      ConnectHeaderOk(m, j);
    }
  }

  lemma BackIsDeliverable(m: Message<ToServer>)
    requires ComesBack(m) && (m.content.Connect? ==> ShadowsAreText(m))
    ensures Deliverable(m)
  {
    hide FrameCore, Serialized, HeadersOk, WireOk, ToClientMsg, Received, CommandOk, HeadersAreEscaped;
    hide HeadersOf, GetContentLength, ReportedBody;
    CommandsOk(m.content);
    KindOfCommand(m.content);
    if m.content.Connect? {
      ConnectHeadersOk(m);
    } else {
      EscapedHeadersNeedNames(ToFrame(m));
    }
    UsedUpIsWireOk(ToFrame(m));
  }

  /**
   * The round trip is exact. A message with text fields comes back in its normal form if and only if its
   * headers can be printed and its body is delimited (`DeliverableIff`), nothing shadows an absent field
   * (`NoShadowIff`), and as a SEND it has only text in its other headers. For CONNECT, whose headers are not
   * escaped, this supposes that what a caller puts under the key of an absent field is text.
   */
  lemma {:induction false} RoundTripIff(m: Message<ToServer>)
    requires TextOk(m.content) && (m.content.Connect? ==> ShadowsAreText(m))
    ensures ComesBack(m) <==> Deliverable(m) && WellFormed(m)
  {
    hide FrameCore, Serialized, ToClientMsg, Wire, WireOk, ToFrame, Received, WellFormed, ShadowsAreText;
    var s := Serialized(ToFrame(m));
    assert s + [] == s;
    if ComesBack(m) {
      BackIsDeliverable(m);
      SerializedParsesIff(ToFrame(m), []);
      NotWellFormed(m);
    }
    if Deliverable(m) && WellFormed(m) {
      MessageRoundTrip(m, []);
    }
  }

  // Inputs at which the conditions fail

  /** A CONNECT without a login. */
  function Plea(extra: seq<Header>): Message<ToServer>
  {
    Message(Connect("1.2", "h", None, None, None), extra)
  }

  function PleaHeaders(): seq<Header>
  {
    [Header("accept-version", "1.2"), Header("host", "h")]
  }

  lemma PleaOwn()
    ensures Present(FieldsOf(Plea([]).content)) == PleaHeaders()
  {
    hide PrintHeartbeat;
    var fields := TypedFields(Plea([]).content);
    assert fields[1..][1..][1..][1..][1..] == [];
    assert Present(fields[1..][1..][1..][1..][1..]) == [];
    assert Present(fields[1..][1..]) == [] by {
      assert Present(fields[1..][1..][1..][1..]) == [];
      assert Present(fields[1..][1..][1..]) == [];
    }
    assert Present(fields[1..]) == [Header("host", "h")] + [];
  }

  lemma PleaWithLogin(v: Bytes)
    ensures HeadersOf(Plea([Header("login", v)])) == PleaHeaders() + [Header("login", v)]
  {
    hide Present, FieldsOf;
    PleaOwn();
    var extra := [Header("login", v)];
    assert !KeyIn(PleaHeaders(), "login");
    assert extra[1..] == [];
    assert Fresh(PleaHeaders(), extra) == extra + Fresh(PleaHeaders(), []);
  }

  lemma PleaText()
    ensures TextOk(Plea([]).content)
  {
    Utf8.AsciiIsValid("1.2");
    Utf8.AsciiIsValid("h");
  }

  lemma LoginAbsent(extra: seq<Header>)
    ensures TypedFields(Plea(extra).content)[2] == Field("login", None)
  {
  }

  /** An extra header with the key of an absent field is taken for that field. */
  lemma ShadowedLogin()
    ensures !ComesBack(Plea([Header("login", "x")]))
  {
    var m := Plea([Header("login", "x")]);
    PleaText();
    PleaWithLogin("x");
    PleaIsText("x");
    LoginAbsent(m.extraHeaders);
    hide TypedFields, ComesBack, HeadersOf, Deliverable, Utf8.Valid, AbsentKey;
    assert Find(CallerHeaders(m.content) + m.extraHeaders, "login") == Some("x");
    assert !LeavesFieldsAbsent(m);
    NoShadowIff(m);
    RoundTripIff(m);
  }

  lemma PleaIsText(v: Bytes)
    requires forall i :: 0 <= i < |v| ==> v[i] <= '\U{007F}'
    ensures ShadowsAreText(Plea([Header("login", v)])) && Utf8.Valid(v)
  {
    hide HeadersOf, Utf8.Valid, AbsentKey;
    PleaWithLogin(v);
    Utf8.AsciiIsValid("1.2");
    Utf8.AsciiIsValid("h");
    Utf8.AsciiIsValid(v);
  }

  /** Octets that are not text, then what a reader takes for one more header. */
  function BrokenLogin(): Bytes
  {
    ['\U{00FF}', '\n'] + "login:x"
  }

  function SplitLogin(): seq<Header>
  {
    PleaHeaders() + [Header("login", ['\U{00FF}'])] + [Header("login", "x")]
  }

  lemma SameText()
    ensures Serialized(ToFrame(Plea([Header("login", BrokenLogin())]))) ==
            Serialized(Frame("CONNECT", SplitLogin(), None))
  {
    hide HeaderLines, HeadersOf, HeaderLine;
    PleaWithLogin(BrokenLogin());
    var h, h1, h2 := Header("login", BrokenLogin()), Header("login", ['\U{00FF}']), Header("login", "x");
    HeaderLinesAppend(false, PleaHeaders(), [h]);
    HeaderLinesAppend(false, PleaHeaders() + [h1], [h2]);
    HeaderLinesAppend(false, PleaHeaders(), [h1]);
    OneLine(h);
    OneLine(h1);
    OneLine(h2);
    SplitLine();
    Regroup(HeaderLines(false, PleaHeaders()), HeaderLine(false, h1), HeaderLine(false, h2));
  }

  lemma OneLine(h: Header)
    ensures HeaderLines(false, [h]) == HeaderLine(false, h)
  {
    assert [h][1..] == [];
    assert HeaderLines(false, [h]) == HeaderLine(false, h) + HeaderLines(false, []);
    assert HeaderLine(false, h) + [] == HeaderLine(false, h);
  }

  lemma SplitLine()
    ensures HeaderLine(false, Header("login", BrokenLogin())) ==
            HeaderLine(false, Header("login", ['\U{00FF}'])) + HeaderLine(false, Header("login", "x"))
  {
  }

  lemma SplitValuesOk()
    ensures ValueOk("1.2") && ValueOk("h") && ValueOk(['\U{00FF}']) && ValueOk("x")
  {
  }

  lemma SplitHeadersOk()
    ensures HeadersOk(SplitLogin()) && NoLengthIn(SplitLogin())
  {
    hide KeyOk, ValueOk;
    ConnectKeysOk(0);
    ConnectKeysOk(1);
    ConnectKeysOk(2);
    SplitValuesOk();
  }

  predicate NoLengthIn(hs: seq<Header>)
  {
    forall i :: 0 <= i < |hs| ==> hs[i].key != "content-length"
  }

  lemma SplitParses()
    ensures var f := Frame("CONNECT", SplitLogin(), None);
            FrameCore(Serialized(f)) == Done(f, |Serialized(f)|)
  {
    hide SplitLogin, GetContentLength, Find, FrameCore, Serialized, HeadersOk, CommandOk, Wire, WireOk, BodyDelimited;
    var f := Frame("CONNECT", SplitLogin(), None);
    SplitHeadersOk();
    CommandsOk(Plea([]).content);
    SplitDelimited();
    ConnectFrameOkIff(f);
    SerializedParsesIff(f, []);
    assert Serialized(f) + [] == Serialized(f);
  }

  lemma SplitDelimited()
    ensures var f := Frame("CONNECT", SplitLogin(), None);
            BodyDelimited(f) && Wire(f) == f
  {
    hide SplitLogin, GetContentLength, Find;
    var f := Frame("CONNECT", SplitLogin(), None);
    SplitHeadersOk();
    FindAbsent(f.headers, "content-length");
    LengthIsFound(f.headers);
    assert WireHeaders(false, f.headers) == f.headers;
  }

  lemma SplitFinds()
    ensures Find(SplitLogin(), "accept-version") == Some("1.2") && Find(SplitLogin(), "host") == Some("h")
    ensures Find(SplitLogin(), "login") == Some(['\U{00FF}'])
    ensures Find(SplitLogin(), "heart-beat") == None && Find(SplitLogin(), "passcode") == None
  {
    var hs := SplitLogin();
    assert hs[1..][1..] == [Header("login", ['\U{00FF}']), Header("login", "x")];
    assert hs[1..][0] == Header("host", "h");
    FindAbsent(hs, "heart-beat");
    FindAbsent(hs, "passcode");
  }

  lemma NotText()
    ensures !Utf8.Valid(['\U{00FF}'])
  {
    assert Utf8.Run(Utf8.Start, ['\U{00FF}']) == Utf8.Run(Utf8.Reject, []);
  }

  lemma {:induction false} NoOthers(hs: seq<Header>, keys: seq<Bytes>)
    requires forall i :: 0 <= i < |hs| ==> hs[i].key in keys
    ensures Others(hs, keys) == []
  {
    if hs != [] {
      NoOthers(hs[1..], keys);
    }
  }

  lemma SplitOthers()
    ensures Others(SplitLogin(), ExpectedKeys(IsConnect)) == []
  {
    hide Others;
    assert forall i :: 0 <= i < |SplitLogin()| ==> SplitLogin()[i].key in ExpectedKeys(IsConnect);
    NoOthers(SplitLogin(), ExpectedKeys(IsConnect));
  }

  lemma SplitReads()
    ensures ToClientMsg(Frame("CONNECT", SplitLogin(), None)) == Ok(Plea([]))
  {
    hide SplitLogin, Find, Others, Utf8.Valid, ParseHeartbeat;
    SplitFinds();
    NotText();
    PleaText();
    SplitOthers();
  }

  lemma BrokenNormalForm()
    ensures Received(Plea([Header("login", BrokenLogin())])) == Plea([])
  {
    hide HeadersOf, Others, BrokenLogin;
    PleaWithLogin(BrokenLogin());
    var hs := PleaHeaders() + [Header("login", BrokenLogin())];
    assert forall i :: 0 <= i < |hs| ==> hs[i].key in ExpectedKeys(IsConnect);
    NoOthers(hs, ExpectedKeys(IsConnect));
  }

  lemma BrokenLoginUndeliverable()
    ensures !Deliverable(Plea([Header("login", BrokenLogin())]))
  {
    hide HeadersOf, HeaderOk, PleaHeaders, BrokenLogin, BodyDelimited, Deliverable;
    var m := Plea([Header("login", BrokenLogin())]);
    PleaWithLogin(BrokenLogin());
    BrokenValue();
    assert HeadersOf(m)[|PleaHeaders()|] == Header("login", BrokenLogin());
    DeliverableIff(m);
  }

  lemma BrokenValue()
    ensures !HeaderOk(Header("login", BrokenLogin()))
  {
    assert !IsValueByte(BrokenLogin()[1]);
  }

  /**
   * Why CONNECT needs the proviso: an extra login that is not text up to a line break, and a header behind
   * it, is printed as two headers that the reader both ignores. The message comes back all the same.
   */
  lemma BrokenLoginComesBack()
    ensures var m := Plea([Header("login", BrokenLogin())]);
            ComesBack(m) && !Deliverable(m)
  {
    hide FrameCore, Serialized, ToClientMsg, SplitLogin, BrokenLogin, ToFrame, Received, Plea, Deliverable;
    SameText();
    SplitParses();
    SplitReads();
    BrokenNormalForm();
    BrokenLoginUndeliverable();
  }
}
