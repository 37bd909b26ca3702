/** Typed messages and their conversions to and from frames. */
module Messages {
  import opened Octets
  import opened Escaping
  import opened Frames
  import Decimal
  import Utf8

  datatype AckMode = Auto | Client | ClientIndividual

  /** Client messages. Text fields are octet strings that hold valid UTF-8 (see `TextOk`). */
  datatype ToServer =
    | Connect(acceptVersion: Bytes, host: Bytes, login: Option<Bytes>, passcode: Option<Bytes>,
              heartbeat: Option<(U32, U32)>)
    | Send(destination: Bytes, within: Option<Bytes>, headers: Option<seq<Header>>, body: Option<Bytes>)
    | Subscribe(destination: Bytes, id: Bytes, ackMode: Option<AckMode>)
    | Unsubscribe(id: Bytes)
    | Ack(id: Bytes, within: Option<Bytes>)
    | Nack(id: Bytes, within: Option<Bytes>)
    | Begin(transaction: Bytes)
    | Commit(transaction: Bytes)
    | Abort(transaction: Bytes)
    | Disconnect(receipt: Option<Bytes>)

  datatype FromServer =
    | Connected(version: Bytes, session: Option<Bytes>, server: Option<Bytes>, heartbeat: Option<Bytes>)
    | Msg(destination: Bytes, messageId: Bytes, subscription: Bytes, ack: Option<Bytes>,
          headers: seq<Header>, body: Option<Bytes>)
    | Receipt(receiptId: Bytes)
    | Error(message: Option<Bytes>, body: Option<Bytes>)

  datatype Message<+T> = Message(content: T, extraHeaders: seq<Header>)

  // Building frames

  /** A header whose value may be absent (`HeaderTuple`). */
  datatype Field = Field(key: Bytes, value: Option<Bytes>)

  function HeaderIfSome(field: Field): seq<Header>
  {
    if field.value.Some? then [Header(field.key, field.value.value)] else []
  }

  /** `Frame::new` keeps only the headers that have a value. */
  function Present(fields: seq<Field>): seq<Header>
  {
    if fields == [] then [] else HeaderIfSome(fields[0]) + Present(fields[1..])
  }

  function PrintHeartbeat(hb: (U32, U32)): Bytes
  {
    Decimal.Print(hb.0) + "," + Decimal.Print(hb.1)
  }

  function PrintAck(ack: AckMode): Bytes
  {
    match ack
    case Auto => "auto"
    case Client => "client"
    case ClientIndividual => "client-individual"
  }

  function CustomFields(headers: seq<Header>): (fields: seq<Field>)
    ensures |fields| == |headers|
    ensures forall i :: 0 <= i < |headers| ==> fields[i] == Field(headers[i].key, Some(headers[i].value))
  {
    seq(|headers|, i requires 0 <= i < |headers| => Field(headers[i].key, Some(headers[i].value)))
  }

  predicate HasKey(fields: seq<Field>, key: Bytes)
  {
    exists i :: 0 <= i < |fields| && fields[i].key == key
  }

  /** The length header a SEND body with NUL octets needs, unless the caller supplied one. */
  function LengthField(fields: seq<Field>, body: Option<Bytes>): seq<Field>
  {
    if body.Some? && '\0' in body.value && !HasKey(fields, "content-length")
    then [Field("content-length", Some(Decimal.Print(|body.value|)))]
    else []
  }

  function SendBase(destination: Bytes, within: Option<Bytes>): seq<Field>
  {
    [Field("destination", Some(destination)), Field("transaction", within)]
  }

  function SendFields(destination: Bytes, within: Option<Bytes>, headers: Option<seq<Header>>, body: Option<Bytes>)
    : seq<Field>
  {
    var custom := if headers.Some? then headers.value else [];
    var fields := SendBase(destination, within) + CustomFields(custom);
    fields + LengthField(fields, body)
  }

  /** The source's `hdr` vector, built by pushes. */
  method BuildSendFields(destination: Bytes, within: Option<Bytes>, headers: Option<seq<Header>>, body: Option<Bytes>)
    returns (hdr: seq<Field>)
    ensures hdr == SendFields(destination, within, headers, body)
  {
    hdr := [Field("destination", Some(destination)), Field("transaction", within)];
    if headers.Some? {
      for i := 0 to |headers.value|
        invariant hdr == SendBase(destination, within) + CustomFields(headers.value[..i])
      {
        hdr := hdr + [Field(headers.value[i].key, Some(headers.value[i].value))];
        assert CustomFields(headers.value[..i + 1]) ==
               CustomFields(headers.value[..i]) + [Field(headers.value[i].key, Some(headers.value[i].value))];
      }
      assert headers.value[..|headers.value|] == headers.value;
    }
    if body.Some? && '\0' in body.value && !HasKey(hdr, "content-length") {
      hdr := hdr + [Field("content-length", Some(Decimal.Print(|body.value|)))];
    }
  }

  function CommandOf(c: ToServer): Bytes
  {
    match c
    case Connect(_, _, _, _, _) => "CONNECT"
    case Send(_, _, _, _) => "SEND"
    case Subscribe(_, _, _) => "SUBSCRIBE"
    case Unsubscribe(_) => "UNSUBSCRIBE"
    case Ack(_, _) => "ACK"
    case Nack(_, _) => "NACK"
    case Begin(_) => "BEGIN"
    case Commit(_) => "COMMIT"
    case Abort(_) => "ABORT"
    case Disconnect(_) => "DISCONNECT"
  }

  /** The headers that carry a message's own fields, in printing order. */
  function TypedFields(c: ToServer): seq<Field>
  {
    match c
    case Connect(version, host, login, passcode, hb) =>
      [Field("accept-version", Some(version)), Field("host", Some(host)), Field("login", login),
       Field("heart-beat", if hb.Some? then Some(PrintHeartbeat(hb.value)) else None),
       Field("passcode", passcode)]
    case Send(destination, within, _, _) => SendBase(destination, within)
    case Subscribe(destination, id, ack) =>
      [Field("destination", Some(destination)), Field("id", Some(id)),
       Field("ack", if ack.Some? then Some(PrintAck(ack.value)) else None)]
    case Unsubscribe(id) => [Field("id", Some(id))]
    case Ack(id, within) => [Field("id", Some(id)), Field("transaction", within)]
    case Nack(id, within) => [Field("id", Some(id)), Field("transaction", within)]
    case Begin(transaction) => [Field("transaction", Some(transaction))]
    case Commit(transaction) => [Field("transaction", Some(transaction))]
    case Abort(transaction) => [Field("transaction", Some(transaction))]
    case Disconnect(receipt) => [Field("receipt", receipt)]
  }

  function FieldsOf(c: ToServer): seq<Field>
  {
    if c.Send? then SendFields(c.destination, c.within, c.headers, c.body) else TypedFields(c)
  }

  function ContentToFrame(c: ToServer): Frame
  {
    Frame(CommandOf(c), Present(FieldsOf(c)), if c.Send? then c.body else None)
  }

  predicate KeyIn(hs: seq<Header>, key: Bytes)
  {
    exists i :: 0 <= i < |hs| && hs[i].key == key
  }

  /** The extra headers whose key is not among the existing ones. */
  function Fresh(existing: seq<Header>, extra: seq<Header>): seq<Header>
  {
    if extra == [] then []
    else (if KeyIn(existing, extra[0].key) then [] else [extra[0]]) + Fresh(existing, extra[1..])
  }

  lemma {:induction false} FreshAppend(existing: seq<Header>, a: seq<Header>, b: seq<Header>)
    ensures Fresh(existing, a + b) == Fresh(existing, a) + Fresh(existing, b)
  {
    if a == [] {
      assert a + b == b;
    } else {
      assert (a + b)[1..] == a[1..] + b;
      FreshAppend(existing, a[1..], b);
    }
  }

  /** `add_extra_headers`: pushes onto the frame's headers. */
  method AddExtraHeaders(f: Frame, extra: seq<Header>) returns (r: Frame)
    ensures r == f.(headers := f.headers + Fresh(f.headers, extra))
  {
    var existing := f.headers;
    var headers := f.headers;
    for i := 0 to |extra|
      invariant headers == existing + Fresh(existing, extra[..i])
    {
      assert extra[..i + 1] == extra[..i] + [extra[i]];
      FreshAppend(existing, extra[..i], [extra[i]]);
      if !KeyIn(existing, extra[i].key) {
        headers := headers + [extra[i]];
      }
    }
    assert extra[..|extra|] == extra;
    r := f.(headers := headers);
  }

  function HeadersOf(m: Message<ToServer>): seq<Header>
  {
    var own := Present(FieldsOf(m.content));
    own + Fresh(own, m.extraHeaders)
  }

  function ToFrame(m: Message<ToServer>): Frame
  {
    ContentToFrame(m.content).(headers := HeadersOf(m))
  }

  // Reading frames

  /** Value of the first header with this key, as it stands. */
  function Find(hs: seq<Header>, key: Bytes): Option<Bytes>
  {
    if hs == [] then None
    else if hs[0].key == key then Some(hs[0].value)
    else Find(hs[1..], key)
  }

  function AsText(s: Option<Bytes>): Option<Bytes>
  {
    if s.Some? && Utf8.Valid(s.value) then s else None
  }

  function FetchRaw(hs: seq<Header>, key: Bytes): Option<Bytes>
  {
    AsText(Find(hs, key))
  }

  function Fetch(hs: seq<Header>, key: Bytes): Option<Bytes>
  {
    match Find(hs, key)
    case None => None
    case Some(v) => AsText(Some(Unescape(v)))
  }

  function Required(v: Option<Bytes>, key: Bytes): Result<Bytes>
  {
    if v.Some? then Ok(v.value) else Err(MissingHeader(key))
  }

  function HeaderToText(h: Header): Result<Header>
  {
    if Utf8.Valid(h.key) && Utf8.Valid(Unescape(h.value)) then Ok(Header(h.key, Unescape(h.value)))
    else Err(NotUtf8)
  }

  function AllToText(hs: seq<Header>): Result<seq<Header>>
  {
    if hs == [] then Ok([])
    else
      var first :- HeaderToText(hs[0]);
      var rest :- AllToText(hs[1..]);
      Ok([first] + rest)
  }

  /** Headers whose key is not one of `keys`. */
  function Others(hs: seq<Header>, keys: seq<Bytes>): seq<Header>
  {
    if hs == [] then []
    else (if hs[0].key in keys then [] else [hs[0]]) + Others(hs[1..], keys)
  }

  function OptionalHeaders(hs: seq<Header>, keys: seq<Bytes>): Result<Option<seq<Header>>>
  {
    var texts :- AllToText(Others(hs, keys));
    Ok(if texts == [] then None else Some(texts))
  }

  function ParseAck(mode: Option<Bytes>): Result<Option<AckMode>>
  {
    if mode.None? then Ok(None)
    else if mode.value == "auto" then Ok(Some(Auto))
    else if mode.value == "client" then Ok(Some(Client))
    else if mode.value == "client-individual" then Ok(Some(ClientIndividual))
    else Err(BadAckMode(mode.value))
  }

  predicate NotComma(b: Byte) { b != ',' }

  /** Two 32-bit numbers around the first comma. */
  function ParseHeartbeat(hb: Bytes): Result<(U32, U32)>
  {
    var n := Span(NotComma, hb);
    if n == |hb| then Err(BadHeartbeat)
    else
      var left, right := Decimal.ParseU32(hb[..n]), Decimal.ParseU32(hb[n + 1..]);
      if left.Some? && right.Some? then Ok((left.value, right.value)) else Err(BadHeartbeat)
  }

  datatype ClientKind =
    | IsConnect | IsSend | IsSubscribe | IsUnsubscribe | IsAck | IsNack | IsBegin | IsCommit | IsAbort | IsDisconnect

  function ClientKindOf(command: Bytes): Option<ClientKind>
  {
    if command == "STOMP" || command == "CONNECT" || command == "stomp" || command == "connect" then Some(IsConnect)
    else if command == "DISCONNECT" || command == "disconnect" then Some(IsDisconnect)
    else if command == "SEND" || command == "send" then Some(IsSend)
    else if command == "SUBSCRIBE" || command == "subscribe" then Some(IsSubscribe)
    else if command == "UNSUBSCRIBE" || command == "unsubscribe" then Some(IsUnsubscribe)
    else if command == "ACK" || command == "ack" then Some(IsAck)
    else if command == "NACK" || command == "nack" then Some(IsNack)
    else if command == "BEGIN" || command == "begin" then Some(IsBegin)
    else if command == "COMMIT" || command == "commit" then Some(IsCommit)
    else if command == "ABORT" || command == "abort" then Some(IsAbort)
    else None
  }

  function ExpectedKeys(kind: ClientKind): seq<Bytes>
  {
    match kind
    case IsConnect => ["accept-version", "host", "login", "passcode", "heart-beat"]
    case IsDisconnect => ["receipt"]
    case IsSend => ["destination", "transaction"]
    case IsSubscribe => ["destination", "id", "ack"]
    case IsUnsubscribe => ["id"]
    case IsAck | IsNack => ["id", "transaction"]
    case IsBegin | IsCommit | IsAbort => ["transaction"]
  }

  function ReadConnect(h: seq<Header>): Result<ToServer>
  {
    var hb: Option<(U32, U32)> :-
      (match FetchRaw(h, "heart-beat")
       case None => Ok(None)
       case Some(text) => var pair :- ParseHeartbeat(text); Ok(Some(pair)));
    var version :- Required(FetchRaw(h, "accept-version"), "accept-version");
    var host :- Required(FetchRaw(h, "host"), "host");
    Ok(Connect(version, host, FetchRaw(h, "login"), FetchRaw(h, "passcode"), hb))
  }

  function ReadSend(h: seq<Header>, body: Option<Bytes>): Result<ToServer>
  {
    var destination :- Required(Fetch(h, "destination"), "destination");
    var headers :- OptionalHeaders(h, ExpectedKeys(IsSend));
    Ok(Send(destination, Fetch(h, "transaction"), headers, body))
  }

  function ReadSubscribe(h: seq<Header>): Result<ToServer>
  {
    var destination :- Required(Fetch(h, "destination"), "destination");
    var id :- Required(Fetch(h, "id"), "id");
    var ack :- ParseAck(Fetch(h, "ack"));
    Ok(Subscribe(destination, id, ack))
  }

  function ReadClient(kind: ClientKind, h: seq<Header>, body: Option<Bytes>): Result<ToServer>
  {
    match kind
    case IsConnect => ReadConnect(h)
    case IsDisconnect => Ok(Disconnect(Fetch(h, "receipt")))
    case IsSend => ReadSend(h, body)
    case IsSubscribe => ReadSubscribe(h)
    case IsUnsubscribe => var id :- Required(Fetch(h, "id"), "id"); Ok(Unsubscribe(id))
    case IsAck => var id :- Required(Fetch(h, "id"), "id"); Ok(Ack(id, Fetch(h, "transaction")))
    case IsNack => var id :- Required(Fetch(h, "id"), "id"); Ok(Nack(id, Fetch(h, "transaction")))
    case IsBegin => var t :- Required(Fetch(h, "transaction"), "transaction"); Ok(Begin(t))
    case IsCommit => var t :- Required(Fetch(h, "transaction"), "transaction"); Ok(Commit(t))
    case IsAbort => var t :- Required(Fetch(h, "transaction"), "transaction"); Ok(Abort(t))
  }

  function ToClientMsg(f: Frame): Result<Message<ToServer>>
  {
    match ClientKindOf(f.command)
    case None => Err(UnknownFrame(f.command))
    case Some(kind) =>
      var content :- ReadClient(kind, f.headers, f.body);
      Ok(Message(content, Others(f.headers, ExpectedKeys(kind))))
  }

  datatype ServerKind = IsConnected | IsMessage | IsReceipt | IsError

  function ServerKindOf(command: Bytes): Option<ServerKind>
  {
    if command == "CONNECTED" || command == "connected" then Some(IsConnected)
    else if command == "MESSAGE" || command == "message" then Some(IsMessage)
    else if command == "RECEIPT" || command == "receipt" then Some(IsReceipt)
    else if command == "ERROR" || command == "error" then Some(IsError)
    else None
  }

  function ServerKeys(kind: ServerKind): seq<Bytes>
  {
    match kind
    case IsConnected => ["version", "session", "server", "heart-beat"]
    case IsMessage => ["destination", "message-id", "subscription", "ack"]
    case IsReceipt => ["receipt-id"]
    case IsError => ["message"]
  }

  function ReadMessage(h: seq<Header>, body: Option<Bytes>): Result<FromServer>
  {
    var destination :- Required(Fetch(h, "destination"), "destination");
    var id :- Required(Fetch(h, "message-id"), "message-id");
    var subscription :- Required(Fetch(h, "subscription"), "subscription");
    var headers :- AllToText(h);
    Ok(Msg(destination, id, subscription, Fetch(h, "ack"), headers, body))
  }

  function ReadServer(kind: ServerKind, h: seq<Header>, body: Option<Bytes>): Result<FromServer>
  {
    match kind
    case IsConnected =>
      var version :- Required(FetchRaw(h, "version"), "version");
      Ok(Connected(version, FetchRaw(h, "session"), FetchRaw(h, "server"), FetchRaw(h, "heart-beat")))
    case IsMessage => ReadMessage(h, body)
    case IsReceipt => var id :- Required(Fetch(h, "receipt-id"), "receipt-id"); Ok(Receipt(id))
    case IsError => Ok(Error(Fetch(h, "message"), body))
  }

  function ToServerMsg(f: Frame): Result<Message<FromServer>>
  {
    match ServerKindOf(f.command)
    case None => Err(UnknownFrame(f.command))
    case Some(kind) =>
      var content :- ReadServer(kind, f.headers, f.body);
      Ok(Message(content, Others(f.headers, ServerKeys(kind))))
  }
}
