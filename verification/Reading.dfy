/** Which frames are accepted as messages, and what the messages then say: for every frame, however it came about. */
module Reading {
  import opened Octets
  import opened Escaping
  import opened Frames
  import opened Messages
  import opened RoundTrip
  import opened ServerFrames
  import Decimal
  import Utf8

  // Looking a header up

  /** Header `i` is the first with this key. */
  ghost predicate First(hs: seq<Header>, key: Bytes, i: nat)
  {
    i < |hs| && hs[i].key == key && forall j :: 0 <= j < i ==> hs[j].key != key
  }

  lemma {:induction false} FindFirst(hs: seq<Header>, key: Bytes) returns (i: nat)
    requires Find(hs, key).Some?
    ensures First(hs, key, i) && Find(hs, key) == Some(hs[i].value)
  {
    if hs[0].key == key {
      i := 0;
    } else {
      i := FindFirst(hs[1..], key);
      i := i + 1;
    }
  }

  lemma {:induction false} FirstFound(hs: seq<Header>, key: Bytes, i: nat)
    requires First(hs, key, i)
    ensures Find(hs, key) == Some(hs[i].value)
  {
    if i > 0 {
      FirstFound(hs[1..], key, i - 1);
    }
  }

  /** What a header value on the wire stands for in a frame with this command. */
  function Meaning(command: Bytes, v: Bytes): Bytes
  {
    if HeadersAreEscaped(command) then Unescape(v) else v
  }

  /** A field is read exactly when the first header with its key holds text, and then it is what that stands for. */
  lemma {:induction false} FetchAsIff(command: Bytes, hs: seq<Header>, key: Bytes, v: Bytes)
    ensures FetchAs(command, hs, key) == Some(v) <==>
            exists i: nat :: First(hs, key, i) && Utf8.Valid(hs[i].value) && v == Meaning(command, hs[i].value)
  {
    hide Find, Unescape, Utf8.Valid, HeadersAreEscaped;
    if Find(hs, key).Some? {
      var i := FindFirst(hs, key);
      Utf8.UnescapeKeepsValidity(hs[i].value);
    }
    forall i: nat | First(hs, key, i) ensures Find(hs, key) == Some(hs[i].value) {
      FirstFound(hs, key, i);
    }
  }

  lemma {:induction false} AllToTextIff(hs: seq<Header>)
    ensures AllToText(hs).Ok? <==> TextHeaders(hs)
    ensures AllToText(hs).Ok? ==> TextsOf(hs, AllToText(hs).value)
  {
    hide Unescape, Utf8.Valid;
    if hs != [] {
      AllToTextIff(hs[1..]);
      Utf8.UnescapeKeepsValidity(hs[0].value);
      assert hs == [hs[0]] + hs[1..];
    }
  }

  /** The same headers with their values unescaped. */
  ghost predicate TextsOf(hs: seq<Header>, texts: seq<Header>)
  {
    |texts| == |hs| && forall i :: 0 <= i < |hs| ==> texts[i] == Header(hs[i].key, Unescape(hs[i].value))
  }

  // Commands

  function LowerByte(b: Byte): Byte
  {
    if 'A' <= b <= 'Z' then (b as int + 32) as char else b
  }

  function Lower(s: Bytes): (t: Bytes)
    ensures |t| == |s| && forall i :: 0 <= i < |s| ==> t[i] == LowerByte(s[i])
  {
    seq(|s|, i requires 0 <= i < |s| => LowerByte(s[i]))
  }

  lemma LowerConnects()
    ensures Lower("CONNECT") == "connect" && Lower("CONNECTED") == "connected" && Lower("STOMP") == "stomp"
  {
  }

  lemma LowerServers()
    ensures Lower("MESSAGE") == "message" && Lower("RECEIPT") == "receipt" && Lower("ERROR") == "error"
  {
  }

  lemma LowerSends()
    ensures Lower("DISCONNECT") == "disconnect" && Lower("SEND") == "send"
    ensures Lower("SUBSCRIBE") == "subscribe" && Lower("UNSUBSCRIBE") == "unsubscribe"
  {
  }

  lemma LowerRest()
    ensures Lower("ACK") == "ack" && Lower("NACK") == "nack" && Lower("BEGIN") == "begin"
    ensures Lower("COMMIT") == "commit" && Lower("ABORT") == "abort"
  {
  }

  /** A command may be spelled in capitals or in small letters. */
  predicate Spelled(command: Bytes, name: Bytes)
  {
    command == name || command == Lower(name)
  }

  /** Only the frames of the CONNECT family are exempt from escaping. */
  lemma EscapedIff(command: Bytes)
    ensures HeadersAreEscaped(command) <==>
            !Spelled(command, "CONNECT") && !Spelled(command, "CONNECTED") && !Spelled(command, "STOMP")
  {
    hide Lower;
    LowerConnects();
  }

  lemma ServerKindIff(command: Bytes, c: FromServer)
    ensures ServerKindOf(command) == Some(ServerKindFor(c)) <==> Spelled(command, ServerCommand(c))
  {
    hide Lower;
    LowerConnects();
    LowerServers();
  }

  /** A message's command, which for CONNECT has a second name. */
  ghost predicate SpelledFor(command: Bytes, c: ToServer)
  {
    Spelled(command, CommandOf(c)) || (c.Connect? && Spelled(command, "STOMP"))
  }

  function NameOf(kind: ClientKind): Bytes
  {
    match kind
    case IsConnect => "CONNECT"
    case IsSend => "SEND"
    case IsSubscribe => "SUBSCRIBE"
    case IsUnsubscribe => "UNSUBSCRIBE"
    case IsAck => "ACK"
    case IsNack => "NACK"
    case IsBegin => "BEGIN"
    case IsCommit => "COMMIT"
    case IsAbort => "ABORT"
    case IsDisconnect => "DISCONNECT"
  }

  function SmallNameOf(kind: ClientKind): Bytes
  {
    match kind
    case IsConnect => "connect"
    case IsSend => "send"
    case IsSubscribe => "subscribe"
    case IsUnsubscribe => "unsubscribe"
    case IsAck => "ack"
    case IsNack => "nack"
    case IsBegin => "begin"
    case IsCommit => "commit"
    case IsAbort => "abort"
    case IsDisconnect => "disconnect"
  }

  lemma SmallName(kind: ClientKind)
    ensures Lower(NameOf(kind)) == SmallNameOf(kind)
  {
    hide Lower;
    LowerConnects();
    LowerSends();
    LowerRest();
  }

  /** Every command but the second name of CONNECT is that of one kind. */
  lemma KindHasName(command: Bytes)
    requires ClientKindOf(command).Some?
    ensures var kind := ClientKindOf(command).value;
            || command == NameOf(kind) || command == SmallNameOf(kind)
            || (kind.IsConnect? && (command == "STOMP" || command == "stomp"))
  {
  }

  lemma NameHasKind(kind: ClientKind)
    ensures ClientKindOf(NameOf(kind)) == Some(kind)
    ensures ClientKindOf("STOMP") == ClientKindOf("stomp") == Some(IsConnect)
  {
  }

  lemma SmallNameHasKind(kind: ClientKind)
    ensures ClientKindOf(SmallNameOf(kind)) == Some(kind)
  {
  }

  lemma ClientKindIff(command: Bytes, c: ToServer)
    ensures ClientKindOf(command) == Some(KindOf(c)) <==> SpelledFor(command, c)
  {
    hide Lower, ClientKindOf, NameOf, SmallNameOf;
    LowerConnects();
    SmallName(KindOf(c));
    NameHasKind(KindOf(c));
    SmallNameHasKind(KindOf(c));
    CommandIsName(c);
    if ClientKindOf(command).Some? {
      KindHasName(command);
    }
  }

  lemma CommandIsName(c: ToServer)
    ensures CommandOf(c) == NameOf(KindOf(c)) && (c.Connect? <==> KindOf(c).IsConnect?)
  {
  }

  // The keys that make up a message

  /** The keys left out of a server message's extra headers are those of its fields. */
  lemma ServerKeysIff(c: FromServer, key: Bytes)
    ensures key in ServerKeys(ServerKindFor(c)) <==>
            exists i :: 0 <= i < |ServerFields(c)| && ServerFields(c)[i].key == key
  {
    if key in ServerKeys(ServerKindFor(c)) {
      var i :| 0 <= i < |ServerKeys(ServerKindFor(c))| && ServerKeys(ServerKindFor(c))[i] == key;
      assert ServerFields(c)[i].key == key;
    }
  }

  /** And those left out of a client message's are those of its fields. */
  lemma ExpectedKeysIff(c: ToServer, key: Bytes)
    ensures key in ExpectedKeys(KindOf(c)) <==>
            exists i :: 0 <= i < |TypedFields(c)| && TypedFields(c)[i].key == key
  {
    hide PrintHeartbeat, PrintAck;
    if key in ExpectedKeys(KindOf(c)) {
      var i := if !c.Connect? || key == "accept-version" || key == "host" || key == "login" then IndexOf(c, key)
               else if key == "heart-beat" then 3 else 4;
      assert TypedFields(c)[i].key == key;
    }
  }

  ghost function IndexOf(c: ToServer, key: Bytes): (i: nat)
    requires key in ExpectedKeys(KindOf(c))
    ensures i < |ExpectedKeys(KindOf(c))| && ExpectedKeys(KindOf(c))[i] == key
  {
    var keys := ExpectedKeys(KindOf(c));
    var i :| 0 <= i < |keys| && keys[i] == key;
    i
  }

  // Frames from the server

  function RequiredOfServer(kind: ServerKind): seq<Bytes>
  {
    match kind
    case IsConnected => ["version"]
    case IsMessage => ["destination", "message-id", "subscription"]
    case IsReceipt => ["receipt-id"]
    case IsError => []
  }

  ghost predicate HoldAll(command: Bytes, hs: seq<Header>, keys: seq<Bytes>)
  {
    forall i :: 0 <= i < |keys| ==> FetchAs(command, hs, keys[i]).Some?
  }

  lemma ConnectFamily(kind: ServerKind, command: Bytes)
    requires ServerKindOf(command) == Some(kind)
    ensures HeadersAreEscaped(command) <==> !kind.IsConnected?
  {
  }

  lemma ReadServerIff(kind: ServerKind, command: Bytes, hs: seq<Header>, body: Option<Bytes>)
    requires HeadersAreEscaped(command) <==> !kind.IsConnected?
    ensures ReadServer(kind, hs, body).Ok? <==>
            HoldAll(command, hs, RequiredOfServer(kind)) && (kind.IsMessage? ==> TextHeaders(hs))
  {
    hide Fetch, FetchRaw, HeadersAreEscaped, AllToText, TextHeaders;
    AllToTextIff(hs);
    var keys := RequiredOfServer(kind);
    if HoldAll(command, hs, keys) {
      assert forall i :: 0 <= i < |keys| ==> FetchAs(command, hs, keys[i]).Some?;
      if kind.IsMessage? {
        assert FetchAs(command, hs, keys[0]).Some? && FetchAs(command, hs, keys[1]).Some?;
        assert FetchAs(command, hs, keys[2]).Some?;
      } else if !kind.IsError? {
        assert FetchAs(command, hs, keys[0]).Some?;
      }
    }
  }

  /**
   * A frame is accepted from the server exactly when its command is known, each required header of its kind is
   * found and holds text, and in a MESSAGE all headers are text.
   */
  lemma {:induction false} ServerAcceptedIff(w: Frame)
    ensures ToServerMsg(w).Ok? <==>
            && ServerKindOf(w.command).Some?
            && var kind := ServerKindOf(w.command).value;
               HoldAll(w.command, w.headers, RequiredOfServer(kind)) && (kind.IsMessage? ==> TextHeaders(w.headers))
  {
    hide ServerKindOf, ReadServer, HoldAll, TextHeaders, HeadersAreEscaped, RequiredOfServer;
    if ServerKindOf(w.command).Some? {
      var kind := ServerKindOf(w.command).value;
      ConnectFamily(kind, w.command);
      ReadServerIff(kind, w.command, w.headers, w.body);
    }
  }

  ghost predicate ServerFieldsAre(command: Bytes, hs: seq<Header>, c: FromServer)
  {
    forall i :: 0 <= i < |ServerFields(c)| ==> ServerFields(c)[i].value == FetchAs(command, hs, ServerFields(c)[i].key)
  }

  lemma ReadServerFields(kind: ServerKind, command: Bytes, hs: seq<Header>, body: Option<Bytes>)
    requires HeadersAreEscaped(command) <==> !kind.IsConnected?
    requires ReadServer(kind, hs, body).Ok?
    ensures var c := ReadServer(kind, hs, body).value;
            && ServerKindFor(c) == kind && ServerFieldsAre(command, hs, c)
            && (c.Msg? ==> TextsOf(hs, c.headers)) && (c.Msg? || c.Error? ==> ServerBody(c) == body)
  {
    hide Fetch, FetchRaw, HeadersAreEscaped, AllToText, TextsOf;
    AllToTextIff(hs);
  }

  /**
   * What an accepted message says: every field is what is read under its key, a MESSAGE lists all headers, the
   * body is the frame's, and the extra headers are the others as they stood.
   */
  lemma {:induction false} ServerMessageRead(w: Frame)
    requires ToServerMsg(w).Ok?
    ensures var m := ToServerMsg(w).value;
            && Spelled(w.command, ServerCommand(m.content))
            && ServerFieldsAre(w.command, w.headers, m.content)
            && (m.content.Msg? ==> TextsOf(w.headers, m.content.headers))
            && (m.content.Msg? || m.content.Error? ==> ServerBody(m.content) == w.body)
            && m.extraHeaders == Others(w.headers, ServerKeys(ServerKindFor(m.content)))
  {
    hide ServerKindOf, ReadServer, HeadersAreEscaped, TextsOf, ServerFieldsAre, Others, Spelled, ServerCommand;
    var kind := ServerKindOf(w.command).value;
    ConnectFamily(kind, w.command);
    ReadServerFields(kind, w.command, w.headers, w.body);
    ServerKindIff(w.command, ToServerMsg(w).value.content);
  }

  // Frames from the client

  function RequiredOfClient(kind: ClientKind): seq<Bytes>
  {
    match kind
    case IsConnect => ["accept-version", "host"]
    case IsSend => ["destination"]
    case IsSubscribe => ["destination", "id"]
    case IsUnsubscribe | IsAck | IsNack => ["id"]
    case IsBegin | IsCommit | IsAbort => ["transaction"]
    case IsDisconnect => []
  }

  /** An `ack` header names one of the three modes, and a `heart-beat` header makes an offer, if they are there. */
  ghost predicate WellSpoken(kind: ClientKind, hs: seq<Header>)
  {
    match kind
    case IsSubscribe => Fetch(hs, "ack") in {None, Some("auto"), Some("client"), Some("client-individual")}
    case IsConnect => FetchRaw(hs, "heart-beat").Some? ==> ParseHeartbeat(FetchRaw(hs, "heart-beat").value).Ok?
    case IsSend => TextHeaders(Others(hs, ExpectedKeys(IsSend)))
    case _ => true
  }

  lemma ClientFamily(kind: ClientKind, command: Bytes)
    requires ClientKindOf(command) == Some(kind)
    ensures HeadersAreEscaped(command) <==> !kind.IsConnect?
  {
  }

  lemma RequiredHeld(command: Bytes, hs: seq<Header>, kind: ClientKind)
    ensures HoldAll(command, hs, RequiredOfClient(kind)) <==>
            && (kind.IsConnect? ==>
                  FetchAs(command, hs, "accept-version").Some? && FetchAs(command, hs, "host").Some?)
            && (kind.IsSend? || kind.IsSubscribe? ==> FetchAs(command, hs, "destination").Some?)
            && (kind.IsSubscribe? || kind.IsUnsubscribe? || kind.IsAck? || kind.IsNack? ==>
                  FetchAs(command, hs, "id").Some?)
            && (kind.IsBegin? || kind.IsCommit? || kind.IsAbort? ==> FetchAs(command, hs, "transaction").Some?)
  {
    hide FetchAs;
    var keys := RequiredOfClient(kind);
    if HoldAll(command, hs, keys) {
      assert |keys| > 0 ==> FetchAs(command, hs, keys[0]).Some?;
      assert |keys| > 1 ==> FetchAs(command, hs, keys[1]).Some?;
    }
  }

  lemma ReadSendIff(hs: seq<Header>, body: Option<Bytes>)
    ensures ReadSend(hs, body).Ok? <==> Fetch(hs, "destination").Some? && WellSpoken(IsSend, hs)
  {
    hide Fetch, AllToText, TextHeaders, Others;
    AllToTextIff(Others(hs, ExpectedKeys(IsSend)));
  }

  lemma ReadSubscribeIff(hs: seq<Header>)
    ensures ReadSubscribe(hs).Ok? <==>
            Fetch(hs, "destination").Some? && Fetch(hs, "id").Some? && WellSpoken(IsSubscribe, hs)
  {
    hide Fetch;
  }

  lemma ReadConnectIff(hs: seq<Header>)
    ensures ReadConnect(hs).Ok? <==>
            FetchRaw(hs, "accept-version").Some? && FetchRaw(hs, "host").Some? && WellSpoken(IsConnect, hs)
  {
    hide FetchRaw, ParseHeartbeat;
  }

  lemma ReadClientIff(kind: ClientKind, command: Bytes, hs: seq<Header>, body: Option<Bytes>)
    requires HeadersAreEscaped(command) <==> !kind.IsConnect?
    ensures ReadClient(kind, hs, body).Ok? <==>
            HoldAll(command, hs, RequiredOfClient(kind)) && WellSpoken(kind, hs)
  {
    RequiredHeld(command, hs, kind);
    ReadSendIff(hs, body);
    ReadSubscribeIff(hs);
    ReadConnectIff(hs);
    ClientCases(kind, hs, body);
    hide Fetch, FetchRaw, HeadersAreEscaped, ReadSend, ReadSubscribe, ReadConnect, HoldAll, ReadClient;
    hide TextHeaders, Others, ParseHeartbeat;
  }

  lemma ClientCases(kind: ClientKind, hs: seq<Header>, body: Option<Bytes>)
    ensures ReadClient(kind, hs, body).Ok? <==>
            match kind
            case IsConnect => ReadConnect(hs).Ok?
            case IsSend => ReadSend(hs, body).Ok?
            case IsSubscribe => ReadSubscribe(hs).Ok?
            case IsUnsubscribe | IsAck | IsNack => Fetch(hs, "id").Some?
            case IsBegin | IsCommit | IsAbort => Fetch(hs, "transaction").Some?
            case IsDisconnect => true
  {
    hide Fetch, FetchRaw, ReadSend, ReadSubscribe, ReadConnect;
  }

  /**
   * A frame is accepted from a client exactly when its command is known, each required header is found and
   * holds text, and an ack mode, an offer or the other headers of a SEND are well formed.
   */
  lemma {:induction false} ClientAcceptedIff(w: Frame)
    ensures ToClientMsg(w).Ok? <==>
            && ClientKindOf(w.command).Some?
            && var kind := ClientKindOf(w.command).value;
               HoldAll(w.command, w.headers, RequiredOfClient(kind)) && WellSpoken(kind, w.headers)
  {
    hide ClientKindOf, ReadClient, HoldAll, WellSpoken, HeadersAreEscaped, RequiredOfClient;
    if ClientKindOf(w.command).Some? {
      var kind := ClientKindOf(w.command).value;
      ClientFamily(kind, w.command);
      ReadClientIff(kind, w.command, w.headers, w.body);
    }
  }

  /** A field printed in a form of its own is read by its value; every other one is what stands under its key. */
  ghost predicate ClientFieldsAre(command: Bytes, hs: seq<Header>, c: ToServer)
  {
    && (forall i :: 0 <= i < |TypedFields(c)| && TypedFields(c)[i].key != "heart-beat" ==>
          TypedFields(c)[i].value == FetchAs(command, hs, TypedFields(c)[i].key))
    && (c.Connect? ==>
          match FetchAs(command, hs, "heart-beat")
          case None => c.heartbeat == None
          case Some(text) => c.heartbeat.Some? && ParseHeartbeat(text) == Ok(c.heartbeat.value))
  }

  lemma ReadConnectFields(command: Bytes, hs: seq<Header>)
    requires !HeadersAreEscaped(command) && ReadConnect(hs).Ok?
    ensures ReadConnect(hs).value.Connect? && ClientFieldsAre(command, hs, ReadConnect(hs).value)
  {
    hide FetchRaw, HeadersAreEscaped, ParseHeartbeat, PrintHeartbeat;
  }

  lemma AckNamed(mode: Option<Bytes>)
    requires ParseAck(mode).Ok?
    ensures var ack := ParseAck(mode).value;
            mode == if ack.Some? then Some(PrintAck(ack.value)) else None
  {
  }

  lemma ReadSubscribeFields(command: Bytes, hs: seq<Header>)
    requires HeadersAreEscaped(command) && ReadSubscribe(hs).Ok?
    ensures ReadSubscribe(hs).value.Subscribe? && ClientFieldsAre(command, hs, ReadSubscribe(hs).value)
  {
    hide Fetch, HeadersAreEscaped, ParseAck, PrintAck;
    AckNamed(Fetch(hs, "ack"));
  }

  lemma ReadSendFields(command: Bytes, hs: seq<Header>, body: Option<Bytes>)
    requires HeadersAreEscaped(command) && ReadSend(hs, body).Ok?
    ensures var c := ReadSend(hs, body).value;
            && c.Send? && ClientFieldsAre(command, hs, c) && c.body == body && OthersListed(c, hs)
  {
    hide Fetch, HeadersAreEscaped, AllToText, TextsOf, Others;
    var others := Others(hs, ExpectedKeys(IsSend));
    AllToTextIff(others);
    AsManyTexts(others, AllToText(others).value);
  }

  lemma AsManyTexts(hs: seq<Header>, texts: seq<Header>)
    requires TextsOf(hs, texts)
    ensures texts == [] <==> hs == []
  {
  }

  /** A SEND lists its other headers, or none if there are none. */
  ghost predicate OthersListed(c: ToServer, hs: seq<Header>)
    requires c.Send?
  {
    var others := Others(hs, ExpectedKeys(IsSend));
    if c.headers.None? then others == [] else others != [] && TextsOf(others, c.headers.value)
  }

  lemma ReadSmallFields(kind: ClientKind, command: Bytes, hs: seq<Header>, body: Option<Bytes>)
    requires HeadersAreEscaped(command) && !kind.IsConnect? && !kind.IsSend? && !kind.IsSubscribe?
    requires ReadClient(kind, hs, body).Ok?
    ensures var c := ReadClient(kind, hs, body).value;
            KindOf(c) == kind && ClientFieldsAre(command, hs, c)
  {
    hide Fetch, FetchRaw, HeadersAreEscaped, ReadConnect, ReadSend, ReadSubscribe;
  }

  lemma ReadClientFields(kind: ClientKind, command: Bytes, hs: seq<Header>, body: Option<Bytes>)
    requires HeadersAreEscaped(command) <==> !kind.IsConnect?
    requires ReadClient(kind, hs, body).Ok?
    ensures var c := ReadClient(kind, hs, body).value;
            && KindOf(c) == kind && ClientFieldsAre(command, hs, c)
            && (c.Send? ==> c.body == body && OthersListed(c, hs))
  {
    hide ClientFieldsAre, OthersListed, ReadConnect, ReadSend, ReadSubscribe, HeadersAreEscaped, Fetch, FetchRaw;
    match kind
    case IsConnect => ReadConnectFields(command, hs);
    case IsSend => ReadSendFields(command, hs, body);
    case IsSubscribe => ReadSubscribeFields(command, hs);
    case _ => ReadSmallFields(kind, command, hs, body);
  }

  /** What an accepted client message says, for every frame. */
  lemma {:induction false} ClientMessageRead(w: Frame)
    requires ToClientMsg(w).Ok?
    ensures var m := ToClientMsg(w).value;
            && SpelledFor(w.command, m.content)
            && ClientFieldsAre(w.command, w.headers, m.content)
            && (m.content.Send? ==> m.content.body == w.body && OthersListed(m.content, w.headers))
            && m.extraHeaders == Others(w.headers, ExpectedKeys(KindOf(m.content)))
  {
    hide ClientKindOf, ReadClient, HeadersAreEscaped, ClientFieldsAre, OthersListed, Others, SpelledFor, ExpectedKeys;
    var kind := ClientKindOf(w.command).value;
    ClientFamily(kind, w.command);
    ReadClientFields(kind, w.command, w.headers, w.body);
    ClientKindIff(w.command, ToClientMsg(w).value.content);
  }

  lemma FirstComma(hb: Bytes, l: Bytes, r: Bytes)
    requires hb == l + ("," + r) && ',' !in l
    ensures Span(NotComma, hb) == |l| < |hb| && hb[..|l|] == l && hb[|l| + 1..] == r
  {
    SpanIs(NotComma, hb, |l|);
  }

  lemma CommaFound(hb: Bytes)
    requires Span(NotComma, hb) < |hb|
    ensures var n := Span(NotComma, hb);
            hb == hb[..n] + ("," + hb[n + 1..]) && ',' !in hb[..n]
  {
    hide Span;
    var n := Span(NotComma, hb);
    SplitAround(hb, n);
    FreeOfComma(hb, n);
  }

  lemma FreeOfComma(s: Bytes, n: nat)
    requires n <= |s| && forall i :: 0 <= i < n ==> NotComma(s[i])
    ensures ',' !in s[..n]
  {
  }

  lemma SplitAround(s: Bytes, n: nat)
    requires n < |s|
    ensures s == s[..n] + ([s[n]] + s[n + 1..])
  {
  }

  /** Two texts around a comma that are read as these numbers. */
  ghost predicate Offers(hb: Bytes, l: Bytes, r: Bytes, a: U32, b: U32)
  {
    hb == l + ("," + r) && ',' !in l && Decimal.ParseU32(l) == Some(a) && Decimal.ParseU32(r) == Some(b)
  }

  /** An offer is two 32-bit numbers on either side of the first comma. */
  lemma ParseHeartbeatIff(hb: Bytes, a: U32, b: U32)
    ensures ParseHeartbeat(hb) == Ok((a, b)) <==> exists l: Bytes, r: Bytes :: Offers(hb, l, r, a, b)
  {
    hide Decimal.ParseU32, Span;
    if ParseHeartbeat(hb) == Ok((a, b)) {
      CommaFound(hb);
      var n := Span(NotComma, hb);
      assert Offers(hb, hb[..n], hb[n + 1..], a, b);
    }
    forall l: Bytes, r: Bytes | Offers(hb, l, r, a, b) ensures ParseHeartbeat(hb) == Ok((a, b)) {
      FirstComma(hb, l, r);
    }
  }
}
