/** Every client message survives printing, parsing and conversion, up to a stated normal form. */
module RoundTrip {
  import opened Octets
  import opened Escaping
  import opened Frames
  import opened Parsing
  import opened Grammar
  import opened Messages
  import Decimal
  import Utf8

  // Lookups on the wire agree with lookups before printing

  lemma WireKeyIs(escape: bool, k: Bytes, key: Bytes)
    requires Plain(key)
    ensures EscapeIf(escape, k) == key <==> k == key
  {
    hide Escape, Unescape;
    EscapeIdentityIffPlain(key);
    UnescapeEscape(k);
    UnescapeEscape(key);
  }

  lemma {:induction false} FindWire(escape: bool, hs: seq<Header>, key: Bytes)
    requires Plain(key)
    ensures Find(WireHeaders(escape, hs), key) ==
            match Find(hs, key)
            case None => None
            case Some(v) => Some(EscapeIf(escape, v))
  {
    hide EscapeIf;
    if hs != [] {
      WireKeyIs(escape, hs[0].key, key);
      FindWire(escape, hs[1..], key);
      assert WireHeaders(escape, hs)[1..] == WireHeaders(escape, hs[1..]);
    }
  }

  /** Reading a header off the wire the way its frame is escaped gives what was printed. */
  lemma FetchWire(hs: seq<Header>, key: Bytes)
    requires Plain(key)
    ensures Fetch(WireHeaders(true, hs), key) == FetchRaw(hs, key)
    ensures FetchRaw(WireHeaders(false, hs), key) == FetchRaw(hs, key)
  {
    hide Find, WireHeaders, Escape, Unescape;
    FindWire(true, hs, key);
    FindWire(false, hs, key);
    if Find(hs, key).Some? {
      UnescapeEscape(Find(hs, key).value);
    }
  }

  ghost predicate PlainKeys(keys: seq<Bytes>)
  {
    forall i :: 0 <= i < |keys| ==> Plain(keys[i])
  }

  lemma WireKeyIn(escape: bool, k: Bytes, keys: seq<Bytes>)
    requires PlainKeys(keys)
    ensures EscapeIf(escape, k) in keys <==> k in keys
  {
    forall i | 0 <= i < |keys| ensures EscapeIf(escape, k) == keys[i] <==> k == keys[i] {
      WireKeyIs(escape, k, keys[i]);
    }
  }

  lemma {:induction false} OthersWire(escape: bool, hs: seq<Header>, keys: seq<Bytes>)
    requires PlainKeys(keys)
    ensures Others(WireHeaders(escape, hs), keys) == WireHeaders(escape, Others(hs, keys))
  {
    hide EscapeIf;
    if hs != [] {
      WireKeyIn(escape, hs[0].key, keys);
      OthersWire(escape, hs[1..], keys);
      assert WireHeaders(escape, hs)[1..] == WireHeaders(escape, hs[1..]);
      var rest := Others(hs[1..], keys);
      if hs[0].key !in keys {
        assert ([hs[0]] + rest)[1..] == rest;
      } else {
        assert [] + rest == rest;
      }
    }
  }

  ghost predicate NoneIn(hs: seq<Header>, keys: seq<Bytes>)
  {
    forall i :: 0 <= i < |hs| ==> hs[i].key !in keys
  }

  lemma {:induction false} OthersAll(hs: seq<Header>, keys: seq<Bytes>)
    requires NoneIn(hs, keys)
    ensures Others(hs, keys) == hs
  {
    if hs != [] {
      OthersAll(hs[1..], keys);
      assert hs == [hs[0]] + hs[1..];
    }
  }

  lemma {:induction false} OthersAppend(a: seq<Header>, b: seq<Header>, keys: seq<Bytes>)
    ensures Others(a + b, keys) == Others(a, keys) + Others(b, keys)
  {
    if a == [] {
      assert a + b == b;
    } else {
      assert (a + b)[1..] == a[1..] + b;
      OthersAppend(a[1..], b, keys);
      var first := if a[0].key in keys then [] else [a[0]];
      var x, y := Others(a[1..], keys), Others(b, keys);
      assert (first + x) + y == first + (x + y);
    }
  }

  lemma {:induction false} OthersOf(hs: seq<Header>, keys: seq<Bytes>)
    ensures NoneIn(Others(hs, keys), keys)
    ensures forall i :: 0 <= i < |Others(hs, keys)| ==> Others(hs, keys)[i] in hs
  {
    if hs != [] {
      OthersOf(hs[1..], keys);
      assert hs == [hs[0]] + hs[1..];
    }
  }

  lemma {:induction false} OthersHas(hs: seq<Header>, keys: seq<Bytes>, i: nat)
    requires i < |hs| && hs[i].key !in keys
    ensures hs[i] in Others(hs, keys)
  {
    if i > 0 {
      OthersHas(hs[1..], keys, i - 1);
    }
  }

  /** Header values come back as they were; keys come back in escaped form. */
  function EscapedKeys(hs: seq<Header>): (ws: seq<Header>)
    ensures |ws| == |hs|
    ensures forall i :: 0 <= i < |hs| ==> ws[i] == Header(Escape(hs[i].key), hs[i].value)
  {
    if hs == [] then [] else [Header(Escape(hs[0].key), hs[0].value)] + EscapedKeys(hs[1..])
  }

  ghost predicate PlainlyKeyed(hs: seq<Header>)
  {
    forall i :: 0 <= i < |hs| ==> Plain(hs[i].key)
  }

  lemma SameKeysIff(hs: seq<Header>)
    ensures EscapedKeys(hs) == hs <==> PlainlyKeyed(hs)
  {
    hide Escape, EscapedKeys, Plain;
    forall i | 0 <= i < |hs| ensures EscapedKeys(hs)[i] == hs[i] <==> Plain(hs[i].key) {
      EscapeIdentityIffPlain(hs[i].key);
    }
    if EscapedKeys(hs) == hs {
      assert forall i :: 0 <= i < |hs| ==> EscapedKeys(hs)[i] == hs[i];
    }
  }

  ghost predicate TextHeaders(hs: seq<Header>)
  {
    forall i :: 0 <= i < |hs| ==> Utf8.Valid(hs[i].key) && Utf8.Valid(hs[i].value)
  }

  lemma {:induction false} AllToTextWire(hs: seq<Header>)
    requires TextHeaders(hs)
    ensures AllToText(WireHeaders(true, hs)) == Ok(EscapedKeys(hs))
  {
    hide Escape, Unescape, Utf8.Valid;
    if hs != [] {
      var ws := WireHeaders(true, hs);
      Utf8.EscapeKeepsValidity(hs[0].key);
      UnescapeEscape(hs[0].value);
      assert HeaderToText(ws[0]) == Ok(Header(Escape(hs[0].key), hs[0].value));
      assert ws[1..] == WireHeaders(true, hs[1..]);
      AllToTextWire(hs[1..]);
    }
  }

  lemma {:induction false} AllToTextNeedsText(hs: seq<Header>)
    requires AllToText(WireHeaders(true, hs)).Ok?
    ensures TextHeaders(hs)
  {
    hide Escape, Unescape, Utf8.Valid;
    if hs != [] {
      var ws := WireHeaders(true, hs);
      Utf8.EscapeKeepsValidity(hs[0].key);
      UnescapeEscape(hs[0].value);
      assert HeaderToText(ws[0]).Ok?;
      assert ws[1..] == WireHeaders(true, hs[1..]);
      assert AllToText(ws[1..]).Ok?;
      AllToTextNeedsText(hs[1..]);
    }
  }

  /** Headers come back unchanged exactly when they are text and no key holds an octet that needs escaping. */
  lemma {:induction false} EscapedKeysIff(hs: seq<Header>)
    ensures AllToText(WireHeaders(true, hs)) == Ok(hs) <==> TextHeaders(hs) && PlainlyKeyed(hs)
  {
    hide AllToText, WireHeaders, EscapedKeys, TextHeaders, PlainlyKeyed;
    SameKeysIff(hs);
    if TextHeaders(hs) {
      AllToTextWire(hs);
    } else if AllToText(WireHeaders(true, hs)).Ok? {
      AllToTextNeedsText(hs);
    }
  }

  lemma EscapeOne(b: Byte)
    ensures Escape([b]) == EscapeByte(b)
  {
    assert Escape([b]) == EscapeByte(b) + Escape([]);
  }

  lemma EscapedColon()
    ensures Escape("a:b") == "a\\cb"
  {
    hide Escape;
    assert "a:b" == "a" + (":" + "b");
    EscapeAppend("a", ":" + "b");
    EscapeAppend(":", "b");
    EscapeOne('a');
    EscapeOne(':');
    EscapeOne('b');
  }

  /** A key that does not survive: its colon comes back as an escape sequence. */
  lemma KeyComesBackEscaped()
    ensures AllToText(WireHeaders(true, [Header("a:b", "v")])) == Ok([Header("a\\cb", "v")])
  {
    hide AllToText, WireHeaders, EscapedKeys, Escape, Utf8.Valid;
    var hs := [Header("a:b", "v")];
    Utf8.AsciiIsValid("a:b");
    Utf8.AsciiIsValid("v");
    AllToTextWire(hs);
    EscapedColon();
    assert EscapedKeys(hs) == [Header("a\\cb", "v")];
  }

  // Typed fields come first

  lemma {:induction false} FindPresent(fields: seq<Field>, i: nat, rest: seq<Header>)
    requires i < |fields| && fields[i].value.Some?
    requires forall j :: 0 <= j < i ==> fields[j].key != fields[i].key
    ensures Find(Present(fields) + rest, fields[i].key) == fields[i].value
  {
    var key, all := fields[i].key, Present(fields) + rest;
    var later := Present(fields[1..]) + rest;
    if i == 0 {
      assert all[0] == Header(key, fields[0].value.value);
    } else {
      FindPresent(fields[1..], i - 1, rest);
      if fields[0].value.Some? {
        assert all == [Header(fields[0].key, fields[0].value.value)] + later;
        assert all[1..] == later;
      } else {
        assert all == later;
      }
    }
  }

  lemma TypedFieldsLead(c: ToServer)
    ensures |TypedFields(c)| <= |FieldsOf(c)| && FieldsOf(c)[..|TypedFields(c)|] == TypedFields(c)
  {
  }

  lemma TypedKeysDistinct(c: ToServer, i: nat, j: nat)
    requires j < i < |TypedFields(c)|
    ensures TypedFields(c)[j].key != TypedFields(c)[i].key
  {
  }

  /** A typed field that is present is found before anything a caller added. */
  lemma FindTyped(m: Message<ToServer>, i: nat)
    requires i < |TypedFields(m.content)| && TypedFields(m.content)[i].value.Some?
    ensures Find(HeadersOf(m), TypedFields(m.content)[i].key) == TypedFields(m.content)[i].value
  {
    hide FieldsOf, TypedFields;
    var fields, typed := FieldsOf(m.content), TypedFields(m.content);
    TypedFieldsLead(m.content);
    forall j | 0 <= j < i ensures fields[j].key != fields[i].key {
      TypedKeysDistinct(m.content, i, j);
      assert fields[..|typed|][j] == fields[j] && fields[..|typed|][i] == fields[i];
    }
    assert fields[..|typed|][i] == fields[i];
    FindPresent(fields, i, Fresh(Present(fields), m.extraHeaders));
  }

  // Well-formed messages

  predicate OptText(s: Option<Bytes>) { s.Some? ==> Utf8.Valid(s.value) }

  /** Text fields hold valid UTF-8, which the source's `String` type guarantees. */
  ghost predicate TextOk(c: ToServer)
  {
    match c
    case Connect(version, host, login, passcode, _) =>
      Utf8.Valid(version) && Utf8.Valid(host) && OptText(login) && OptText(passcode)
    case Send(destination, within, _, _) => Utf8.Valid(destination) && OptText(within)
    case Subscribe(destination, id, _) => Utf8.Valid(destination) && Utf8.Valid(id)
    case Unsubscribe(id) => Utf8.Valid(id)
    case Ack(id, within) => Utf8.Valid(id) && OptText(within)
    case Nack(id, within) => Utf8.Valid(id) && OptText(within)
    case Begin(t) => Utf8.Valid(t)
    case Commit(t) => Utf8.Valid(t)
    case Abort(t) => Utf8.Valid(t)
    case Disconnect(receipt) => OptText(receipt)
  }

  /** No caller-supplied header with readable text takes the place of a typed field that is absent. */
  ghost predicate NoShadow(m: Message<ToServer>)
  {
    forall i :: 0 <= i < |TypedFields(m.content)| && TypedFields(m.content)[i].value.None? ==>
      FetchRaw(HeadersOf(m), TypedFields(m.content)[i].key).None?
  }

  lemma HeartbeatIsAscii(hb: (U32, U32))
    ensures forall i :: 0 <= i < |PrintHeartbeat(hb)| ==> '+' <= PrintHeartbeat(hb)[i] <= '9'
    ensures Utf8.Valid(PrintHeartbeat(hb))
  {
    hide Decimal.Print;
    Decimal.PrintIsDigits(hb.0);
    Decimal.PrintIsDigits(hb.1);
    Utf8.AsciiIsValid(PrintHeartbeat(hb));
  }

  /** Both offers come back from the `heart-beat` header, for all 32-bit values. */
  lemma HeartbeatRoundTrip(hb: (U32, U32))
    ensures ParseHeartbeat(PrintHeartbeat(hb)) == Ok(hb)
  {
    hide Decimal.Print, Decimal.ParseU32;
    var left, right, s := Decimal.Print(hb.0), Decimal.Print(hb.1), PrintHeartbeat(hb);
    Decimal.PrintIsDigits(hb.0);
    Decimal.ParsePrint(hb.0);
    Decimal.ParsePrint(hb.1);
    SpanIs(NotComma, s, |left|);
    assert s[..|left|] == left && s[|left| + 1..] == right;
  }

  lemma AckIsText(ack: AckMode)
    ensures Utf8.Valid(PrintAck(ack)) && ParseAck(Some(PrintAck(ack))) == Ok(Some(ack))
  {
    Utf8.AsciiIsValid(PrintAck(ack));
  }

  lemma TypedFieldsAreText(c: ToServer, i: nat)
    requires TextOk(c) && i < |TypedFields(c)|
    ensures OptText(TypedFields(c)[i].value)
  {
    hide Utf8.Valid, PrintHeartbeat, PrintAck;
    if c.Connect? && c.heartbeat.Some? {
      HeartbeatIsAscii(c.heartbeat.value);
    }
    if c.Subscribe? && c.ackMode.Some? {
      AckIsText(c.ackMode.value);
    }
  }

  lemma ConnectKeysPlain()
    ensures Plain("accept-version") && Plain("host") && Plain("login") && Plain("passcode") && Plain("heart-beat")
  {
  }

  lemma OtherKeysPlain()
    ensures Plain("receipt") && Plain("destination") && Plain("transaction") && Plain("id") && Plain("ack")
  {
  }

  lemma ExpectedKeysPlain(kind: ClientKind)
    ensures PlainKeys(ExpectedKeys(kind))
  {
    hide Plain;
    ConnectKeysPlain();
    OtherKeysPlain();
  }

  lemma TypedKeysPlain(c: ToServer, i: nat)
    requires i < |TypedFields(c)|
    ensures Plain(TypedFields(c)[i].key)
  {
    hide Plain;
    ConnectKeysPlain();
    OtherKeysPlain();
  }

  /** Reads a header of a frame with this command, the way the source does. */
  function FetchAs(command: Bytes, hs: seq<Header>, key: Bytes): Option<Bytes>
  {
    if HeadersAreEscaped(command) then Fetch(hs, key) else FetchRaw(hs, key)
  }

  ghost function WireHeadersOf(m: Message<ToServer>): seq<Header>
  {
    WireHeaders(HeadersAreEscaped(CommandOf(m.content)), HeadersOf(m))
  }

  /**
   * First-wins field integrity: a typed field that is present is what a reader finds under its key,
   * whatever custom and extra headers were added.
   */
  lemma {:induction false} FirstWins(m: Message<ToServer>, i: nat)
    requires TextOk(m.content)
    requires i < |TypedFields(m.content)| && TypedFields(m.content)[i].value.Some?
    ensures FetchAs(CommandOf(m.content), WireHeadersOf(m), TypedFields(m.content)[i].key) ==
            TypedFields(m.content)[i].value
  {
    hide Find, HeadersOf, TypedFields, Utf8.Valid, WireHeaders, Fetch, CommandOf, HeadersAreEscaped, TextOk, Plain;
    var f := TypedFields(m.content)[i];
    FindTyped(m, i);
    TypedFieldsAreText(m.content, i);
    TypedKeysPlain(m.content, i);
    FetchWire(HeadersOf(m), f.key);
  }

  /** Present or absent, a typed field that nothing shadows comes back. */
  lemma FieldBack(m: Message<ToServer>, i: nat)
    requires TextOk(m.content) && NoShadow(m) && i < |TypedFields(m.content)|
    ensures FetchAs(CommandOf(m.content), WireHeadersOf(m), TypedFields(m.content)[i].key) ==
            TypedFields(m.content)[i].value
  {
    hide Find, HeadersOf, TypedFields, Utf8.Valid, WireHeaders, Fetch, FetchRaw, CommandOf, HeadersAreEscaped;
    hide TextOk, Plain;
    var f := TypedFields(m.content)[i];
    if f.value.Some? {
      FirstWins(m, i);
    } else {
      TypedKeysPlain(m.content, i);
      FetchWire(HeadersOf(m), f.key);
    }
  }

  // Normal forms

  /** The headers of a SEND that are not typed fields: custom ones, an added length, and fresh extras. */
  ghost function SendOthers(m: Message<ToServer>): seq<Header>
  {
    Others(HeadersOf(m), ExpectedKeys(IsSend))
  }

  function SomeIfAny(hs: seq<Header>): Option<seq<Header>>
  {
    if hs == [] then None else Some(hs)
  }

  ghost function KindOf(c: ToServer): ClientKind
  {
    match c
    case Connect(_, _, _, _, _) => IsConnect
    case Send(_, _, _, _) => IsSend
    case Subscribe(_, _, _) => IsSubscribe
    case Unsubscribe(_) => IsUnsubscribe
    case Ack(_, _) => IsAck
    case Nack(_, _) => IsNack
    case Begin(_) => IsBegin
    case Commit(_) => IsCommit
    case Abort(_) => IsAbort
    case Disconnect(_) => IsDisconnect
  }

  /** What a reader makes of a message's content: the same, except that SEND gathers its other headers. */
  ghost function ReceivedContent(m: Message<ToServer>): ToServer
  {
    if m.content.Send? then
      m.content.(headers := SomeIfAny(EscapedKeys(SendOthers(m))), body := Wire(ToFrame(m)).body)
    else m.content
  }

  /** What a reader makes of a message; extra headers come back in wire form. */
  ghost function Received(m: Message<ToServer>): Message<ToServer>
  {
    Message(ReceivedContent(m), WireHeaders(HeadersAreEscaped(CommandOf(m.content)),
                                            Others(HeadersOf(m), ExpectedKeys(KindOf(m.content)))))
  }

  /** Messages whose conversion back is well defined. */
  ghost predicate WellFormed(m: Message<ToServer>)
  {
    TextOk(m.content) && NoShadow(m) && (m.content.Send? ==> TextHeaders(SendOthers(m)))
  }

  lemma KindOfCommand(c: ToServer)
    ensures ClientKindOf(CommandOf(c)) == Some(KindOf(c))
    ensures HeadersAreEscaped(CommandOf(c)) <==> !c.Connect?
  {
  }

  lemma ConnectBack(m: Message<ToServer>)
    requires m.content.Connect? && WellFormed(m)
    ensures ReadConnect(WireHeadersOf(m)) == Ok(m.content)
  {
    hide FetchRaw, WireHeadersOf, PrintHeartbeat, ParseHeartbeat, HeadersAreEscaped, TextOk, NoShadow;
    var c, hs := m.content, WireHeadersOf(m);
    KindOfCommand(c);
    FieldBack(m, 0);
    FieldBack(m, 1);
    FieldBack(m, 2);
    FieldBack(m, 3);
    FieldBack(m, 4);
    if c.heartbeat.Some? {
      HeartbeatRoundTrip(c.heartbeat.value);
    }
  }

  lemma OthersBack(hs: seq<Header>, keys: seq<Bytes>)
    requires PlainKeys(keys) && TextHeaders(Others(hs, keys))
    ensures OptionalHeaders(WireHeaders(true, hs), keys) == Ok(SomeIfAny(EscapedKeys(Others(hs, keys))))
  {
    hide Others, AllToText, WireHeaders, EscapedKeys, TextHeaders, PlainKeys;
    OthersWire(true, hs, keys);
    AllToTextWire(Others(hs, keys));
  }

  lemma SendBack(m: Message<ToServer>)
    requires m.content.Send? && WellFormed(m)
    ensures ReadSend(WireHeadersOf(m), Wire(ToFrame(m)).body) == Ok(ReceivedContent(m))
  {
    hide Fetch, Wire, HeadersAreEscaped, Others, OptionalHeaders, HeadersOf, WireHeaders, EscapedKeys, TextHeaders;
    hide PlainKeys, NoShadow, SomeIfAny, CommandOf;
    KindOfCommand(m.content);
    FieldBack(m, 0);
    FieldBack(m, 1);
    ExpectedKeysPlain(IsSend);
    OthersBack(HeadersOf(m), ExpectedKeys(IsSend));
  }

  lemma SubscribeBack(m: Message<ToServer>)
    requires m.content.Subscribe? && WellFormed(m)
    ensures ReadSubscribe(WireHeadersOf(m)) == Ok(m.content)
  {
    hide Fetch, WireHeadersOf, PrintAck, ParseAck, HeadersAreEscaped;
    var c, hs := m.content, WireHeadersOf(m);
    KindOfCommand(c);
    FieldBack(m, 0);
    FieldBack(m, 1);
    FieldBack(m, 2);
    if c.ackMode.Some? {
      AckIsText(c.ackMode.value);
    } else {
      NoAck();
    }
  }

  lemma NoAck()
    ensures ParseAck(None) == Ok(None)
  {
  }

  lemma SmallBack(m: Message<ToServer>, body: Option<Bytes>)
    requires !m.content.Connect? && !m.content.Send? && !m.content.Subscribe? && WellFormed(m)
    ensures ReadClient(KindOf(m.content), WireHeadersOf(m), body) == Ok(m.content)
  {
    hide Fetch, WireHeadersOf, HeadersAreEscaped, ReadConnect, ReadSend, ReadSubscribe, CommandOf, NoShadow, TextOk;
    var c, hs := m.content, WireHeadersOf(m);
    KindOfCommand(c);
    FieldBack(m, 0);
    if c.Ack? || c.Nack? {
      FieldBack(m, 1);
    }
  }

  lemma ContentBack(m: Message<ToServer>)
    requires WellFormed(m)
    ensures ReadClient(KindOf(m.content), WireHeadersOf(m), Wire(ToFrame(m)).body) == Ok(ReceivedContent(m))
  {
    hide WireHeadersOf, Wire, ReadConnect, ReadSend, ReadSubscribe, WellFormed;
    match m.content
    case Connect(_, _, _, _, _) => ConnectBack(m);
    case Send(_, _, _, _) => SendBack(m);
    case Subscribe(_, _, _) => SubscribeBack(m);
    case _ => SmallBack(m, Wire(ToFrame(m)).body);
  }

  /** Converting the wire form of a message back gives its normal form. */
  lemma {:induction false} ConvertBack(m: Message<ToServer>)
    requires WellFormed(m)
    ensures ToClientMsg(Wire(ToFrame(m))) == Ok(Received(m))
  {
    hide ReadClient, Others, HeadersOf, WireHeaders, HeadersAreEscaped, ClientKindOf, ReceivedContent;
    hide WellFormed, PlainKeys, GetContentLength, ReportedBody;
    var c := m.content;
    ContentBack(m);
    KindOfCommand(c);
    ExpectedKeysPlain(KindOf(c));
    OthersWire(HeadersAreEscaped(CommandOf(c)), HeadersOf(m), ExpectedKeys(KindOf(c)));
  }

  /** A message whose printed form has a spelling. */
  ghost predicate Deliverable(m: Message<ToServer>)
  {
    WireOk(Wire(ToFrame(m)))
  }

  /**
   * Message round trip: for every variant, printing, parsing and converting back gives the message
   * in its normal form and uses exactly the printed octets, whatever follows them.
   */
  lemma {:induction false} MessageRoundTrip(m: Message<ToServer>, rest: Bytes)
    requires WellFormed(m) && Deliverable(m)
    ensures var parsed := FrameCore(Serialized(ToFrame(m)) + rest);
            && parsed.Done? && parsed.used == |Serialized(ToFrame(m))|
            && ToClientMsg(parsed.value) == Ok(Received(m))
  {
    hide FrameCore, Serialized, Wire, WireOk, ToClientMsg, Received, WellFormed;
    SerializedParsesIff(ToFrame(m), rest);
    ConvertBack(m);
  }
}
