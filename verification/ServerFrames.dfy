/** Frames from the server: what `to_server_msg` reads off any frame a server prints for a message. */
module ServerFrames {
  import opened Octets
  import opened Escaping
  import opened Frames
  import opened Parsing
  import opened Grammar
  import opened Messages
  import opened RoundTrip
  import Utf8

  function ServerCommand(c: FromServer): Bytes
  {
    match c
    case Connected(_, _, _, _) => "CONNECTED"
    case Msg(_, _, _, _, _, _) => "MESSAGE"
    case Receipt(_) => "RECEIPT"
    case Error(_, _) => "ERROR"
  }

  /** The headers that STOMP 1.2 assigns to each server frame. */
  function ServerFields(c: FromServer): seq<Field>
  {
    match c
    case Connected(version, session, server, heartbeat) =>
      [Field("version", Some(version)), Field("session", session), Field("server", server),
       Field("heart-beat", heartbeat)]
    case Msg(destination, id, subscription, ack, _, _) =>
      [Field("destination", Some(destination)), Field("message-id", Some(id)),
       Field("subscription", Some(subscription)), Field("ack", ack)]
    case Receipt(id) => [Field("receipt-id", Some(id))]
    case Error(message, _) => [Field("message", message)]
  }

  function ServerBody(c: FromServer): Option<Bytes>
  {
    match c
    case Msg(_, _, _, _, _, body) => body
    case Error(_, body) => body
    case _ => None
  }

  /** A server's frame for a message: its own headers first, then any others. */
  function ServerFrame(c: FromServer, others: seq<Header>): Frame
  {
    Frame(ServerCommand(c), Present(ServerFields(c)) + others, ServerBody(c))
  }

  ghost predicate ServerTextOk(c: FromServer)
  {
    forall i :: 0 <= i < |ServerFields(c)| ==> OptText(ServerFields(c)[i].value)
  }

  ghost predicate ServerNoShadow(c: FromServer, others: seq<Header>)
  {
    forall i :: 0 <= i < |ServerFields(c)| && ServerFields(c)[i].value.None? ==>
      FetchRaw(ServerFrame(c, others).headers, ServerFields(c)[i].key).None?
  }

  lemma ServerKeysDistinct(c: FromServer, i: nat, j: nat)
    requires j < i < |ServerFields(c)|
    ensures ServerFields(c)[j].key != ServerFields(c)[i].key
  {
  }

  lemma ConnectedKeysPlain()
    ensures Plain("version") && Plain("session") && Plain("server") && Plain("heart-beat") && Plain("receipt-id")
  {
  }

  lemma MessageKeysPlain()
    ensures Plain("destination") && Plain("message-id") && Plain("subscription") && Plain("ack") && Plain("message")
  {
  }

  lemma ServerKeyPlain(c: FromServer, i: nat)
    requires i < |ServerFields(c)|
    ensures Plain(ServerFields(c)[i].key)
  {
    hide Plain;
    ConnectedKeysPlain();
    MessageKeysPlain();
  }

  ghost function ServerWire(c: FromServer, others: seq<Header>): seq<Header>
  {
    WireHeaders(HeadersAreEscaped(ServerCommand(c)), ServerFrame(c, others).headers)
  }

  lemma FindServerField(c: FromServer, others: seq<Header>, i: nat)
    requires i < |ServerFields(c)| && ServerFields(c)[i].value.Some?
    ensures Find(ServerFrame(c, others).headers, ServerFields(c)[i].key) == ServerFields(c)[i].value
  {
    hide ServerFields, Find, Present, ServerCommand, ServerBody;
    var fields := ServerFields(c);
    forall j | 0 <= j < i ensures fields[j].key != fields[i].key {
      ServerKeysDistinct(c, i, j);
    }
    FindPresent(fields, i, others);
  }

  /** Every field of a server message is read as it was sent, whatever headers follow. */
  lemma ServerFieldBack(c: FromServer, others: seq<Header>, i: nat)
    requires ServerTextOk(c) && ServerNoShadow(c, others) && i < |ServerFields(c)|
    ensures FetchAs(ServerCommand(c), ServerWire(c, others), ServerFields(c)[i].key) == ServerFields(c)[i].value
  {
    hide ServerFields, ServerFrame, Find, Utf8.Valid, WireHeaders, Fetch, ServerCommand, HeadersAreEscaped, Plain;
    ServerKeyPlain(c, i);
    FetchWire(ServerFrame(c, others).headers, ServerFields(c)[i].key);
    if ServerFields(c)[i].value.Some? {
      FindServerField(c, others, i);
    }
  }

  ghost function ServerKindFor(c: FromServer): ServerKind
  {
    match c
    case Connected(_, _, _, _) => IsConnected
    case Msg(_, _, _, _, _, _) => IsMessage
    case Receipt(_) => IsReceipt
    case Error(_, _) => IsError
  }

  lemma ServerKindOfCommand(c: FromServer)
    ensures ServerKindOf(ServerCommand(c)) == Some(ServerKindFor(c))
    ensures HeadersAreEscaped(ServerCommand(c)) <==> !c.Connected?
  {
  }

  /** What is read: the same content, with MESSAGE listing all of the frame's headers. */
  ghost function ServerReceived(c: FromServer, others: seq<Header>): FromServer
  {
    var f := ServerFrame(c, others);
    match c
    case Msg(_, _, _, _, _, _) => c.(headers := EscapedKeys(f.headers), body := Wire(f).body)
    case Error(_, _) => c.(body := Wire(f).body)
    case _ => c
  }

  lemma MessageBack(c: FromServer, others: seq<Header>)
    requires c.Msg? && ServerTextOk(c) && ServerNoShadow(c, others) && TextHeaders(ServerFrame(c, others).headers)
    ensures ReadMessage(ServerWire(c, others), Wire(ServerFrame(c, others)).body) == Ok(ServerReceived(c, others))
  {
    hide Fetch, WireHeaders, HeadersAreEscaped, AllToText, EscapedKeys, TextHeaders, Wire, ServerFrame;
    hide ServerTextOk, ServerNoShadow;
    ServerKindOfCommand(c);
    ServerFieldBack(c, others, 0);
    ServerFieldBack(c, others, 1);
    ServerFieldBack(c, others, 2);
    ServerFieldBack(c, others, 3);
    AllToTextWire(ServerFrame(c, others).headers);
  }

  lemma SmallServerBack(c: FromServer, others: seq<Header>)
    requires !c.Msg? && ServerTextOk(c) && ServerNoShadow(c, others)
    ensures ReadServer(ServerKindFor(c), ServerWire(c, others), Wire(ServerFrame(c, others)).body) ==
            Ok(ServerReceived(c, others))
  {
    hide Fetch, FetchRaw, WireHeaders, HeadersAreEscaped, ReadMessage, Wire, ServerFrame, ServerWire, ServerTextOk;
    hide ServerNoShadow;
    ServerKindOfCommand(c);
    ServerFieldBack(c, others, 0);
    if c.Connected? {
      ServerFieldBack(c, others, 1);
      ServerFieldBack(c, others, 2);
      ServerFieldBack(c, others, 3);
    }
  }

  lemma ServerKeysPlain(kind: ServerKind)
    ensures PlainKeys(ServerKeys(kind))
  {
    hide Plain;
    ConnectedKeysPlain();
    MessageKeysPlain();
  }

  lemma {:induction false} OwnFieldsOnly(fields: seq<Field>, keys: seq<Bytes>)
    requires forall i :: 0 <= i < |fields| ==> fields[i].key in keys
    ensures Others(Present(fields), keys) == []
  {
    if fields != [] {
      OwnFieldsOnly(fields[1..], keys);
      var rest := Present(fields[1..]);
      if fields[0].value.Some? {
        assert Present(fields)[1..] == rest;
      } else {
        assert [] + rest == rest;
      }
    }
  }

  lemma ServerFieldsExpected(c: FromServer, i: nat)
    requires i < |ServerFields(c)|
    ensures ServerFields(c)[i].key in ServerKeys(ServerKindFor(c))
  {
  }

  /** The extra headers of the message read: the further headers in wire form, less any with a typed key. */
  lemma ServerExtras(c: FromServer, others: seq<Header>)
    ensures Others(ServerWire(c, others), ServerKeys(ServerKindFor(c))) ==
            WireHeaders(HeadersAreEscaped(ServerCommand(c)), Others(others, ServerKeys(ServerKindFor(c))))
  {
    hide ServerFields, ServerKeys, Others, Present, WireHeaders, HeadersAreEscaped, ServerKindFor, ServerCommand;
    hide PlainKeys;
    var keys, own := ServerKeys(ServerKindFor(c)), Present(ServerFields(c));
    ServerKeysPlain(ServerKindFor(c));
    OthersWire(HeadersAreEscaped(ServerCommand(c)), own + others, keys);
    OthersAppend(own, others, keys);
    forall i | 0 <= i < |ServerFields(c)| ensures ServerFields(c)[i].key in keys {
      ServerFieldsExpected(c, i);
    }
    OwnFieldsOnly(ServerFields(c), keys);
    assert [] + Others(others, keys) == Others(others, keys);
  }

  /** A server's message as it is read, with its extra headers. */
  ghost function ServerMessage(c: FromServer, others: seq<Header>): Message<FromServer>
  {
    Message(ServerReceived(c, others),
            WireHeaders(HeadersAreEscaped(ServerCommand(c)), Others(others, ServerKeys(ServerKindFor(c)))))
  }

  /**
   * Reading server frames: for every server message and any further headers, printing its frame and
   * decoding it gives back every field, for MESSAGE the complete header list, and as extra headers the
   * further ones in wire form.
   */
  lemma {:induction false} ServerRoundTrip(c: FromServer, others: seq<Header>, rest: Bytes)
    requires ServerTextOk(c) && ServerNoShadow(c, others)
    requires c.Msg? ==> TextHeaders(ServerFrame(c, others).headers)
    requires WireOk(Wire(ServerFrame(c, others)))
    ensures var parsed := FrameCore(Serialized(ServerFrame(c, others)) + rest);
            && parsed.Done? && parsed.used == |Serialized(ServerFrame(c, others))|
            && ToServerMsg(parsed.value) == Ok(ServerMessage(c, others))
  {
    hide FrameCore, Serialized, WireOk, Wire, ToServerMsg, ServerFrame, ServerMessage, ServerTextOk, ServerNoShadow;
    hide TextHeaders;
    var f := ServerFrame(c, others);
    SerializedParsesIff(f, rest);
    ServerConverts(c, others);
  }

  lemma ServerConverts(c: FromServer, others: seq<Header>)
    requires ServerTextOk(c) && ServerNoShadow(c, others)
    requires c.Msg? ==> TextHeaders(ServerFrame(c, others).headers)
    ensures ToServerMsg(Wire(ServerFrame(c, others))) == Ok(ServerMessage(c, others))
  {
    hide WireHeaders, HeadersAreEscaped, ReadMessage, Others, ServerKindOf, GetContentLength, ReportedBody;
    hide ServerReceived, TextHeaders, ServerTextOk, ServerNoShadow, Fetch, FetchRaw, ServerFields, Present;
    hide ServerKeys;
    ServerKindOfCommand(c);
    ServerExtras(c, others);
    if c.Msg? {
      MessageBack(c, others);
    } else {
      SmallServerBack(c, others);
    }
  }
}
