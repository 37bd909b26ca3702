/** The CONNECT handshake and the negotiation of heart-beats. */
module Handshake {
  import opened Octets
  import opened Frames
  import opened Parsing
  import opened Grammar
  import opened Messages
  import opened RoundTrip
  import opened ServerFrames
  import opened Reading

  /** The interval for one direction, in milliseconds; none if either side declines. */
  function Negotiate(sender: U32, receiver: U32): Option<U32>
  {
    if sender != 0 && receiver != 0 then Some(if sender > receiver then sender else receiver) else None
  }

  datatype Reply =
    | Accepted(outgoing: Option<U32>, incoming: Option<U32>)
    | Unexpected
    | WrongVersion(version: Bytes)
    | BadOffer

  function AcceptConnected(reply: Option<Message<FromServer>>, requested: Option<(U32, U32)>): Reply
  {
    if reply.None? || !reply.value.content.Connected? then Unexpected
    else
      var c := reply.value.content;
      if c.version != "1.2" then WrongVersion(c.version)
      else
        var mine: (U32, U32) := if requested.Some? then requested.value else (0, 0);
        var theirs: Result<(U32, U32)> := if c.heartbeat.Some? then ParseHeartbeat(c.heartbeat.value) else Ok((0, 0));
        if theirs.Err? then BadOffer
        else Accepted(Negotiate(mine.0, theirs.value.1), Negotiate(theirs.value.0, mine.1))
  }

  /** Whether a connection needs a write pump, decided before the server has answered. */
  predicate Beats(automatic: bool, requested: Option<(U32, U32)>)
  {
    automatic && requested.Some? && requested.value.0 > 0
  }

  /** A negotiated interval is positive and at least each side's offer, and is one of the two. */
  lemma IntervalBounds(sender: U32, receiver: U32)
    ensures Negotiate(sender, receiver).None? <==> sender == 0 || receiver == 0
    ensures Negotiate(sender, receiver).Some? ==>
              var n := Negotiate(sender, receiver).value;
              n > 0 && n >= sender && n >= receiver && (n == sender || n == receiver)
  {
  }

  // Through the wire

  /** The offer a header makes; none is the same as declining both directions. */
  function Offer(hb: Option<(U32, U32)>): (U32, U32)
  {
    if hb.Some? then hb.value else (0, 0)
  }

  /** The reply of a server with this offer: version 1.2, its offer if any, and what else it has to say. */
  function ConnectedReply(offer: Option<(U32, U32)>, session: Option<Bytes>, server: Option<Bytes>): FromServer
  {
    Connected("1.2", session, server, if offer.Some? then Some(PrintHeartbeat(offer.value)) else None)
  }

  /** After this reply the connection has to send beats by itself. */
  predicate OwesBeats(automatic: bool, reply: Option<Message<FromServer>>, requested: Option<(U32, U32)>)
  {
    var r := AcceptConnected(reply, requested);
    automatic && r.Accepted? && r.outgoing.Some?
  }

  /**
   * The pump decision is exact: a connection is given a pump if and only if some reply can make it owe beats
   * of its own, so one left unpumped never owes any, and one that is not automatic is never given a pump.
   */
  lemma PumpDecisionExact(automatic: bool, requested: Option<(U32, U32)>)
    ensures (exists reply :: OwesBeats(automatic, reply, requested)) <==> Beats(automatic, requested)
  {
    hide PrintHeartbeat, ParseHeartbeat;
    if Beats(automatic, requested) {
      var offer: (U32, U32) := (0, 1);
      HeartbeatRoundTrip(offer);
      assert OwesBeats(automatic, Some(Message(ConnectedReply(Some(offer), None, None), [])), requested);
    }
  }

  /** Client to server, then server to client: the intervals of a session between these two offers. */
  function Intervals(client: (U32, U32), server: (U32, U32)): (Option<U32>, Option<U32>)
  {
    (Negotiate(client.0, server.1), Negotiate(server.0, client.1))
  }

  // Which replies are accepted

  /** What a `heart-beat` header offers: two numbers around a comma, and without a header nothing. */
  ghost predicate MakesOffer(hb: Option<Bytes>, offer: (U32, U32))
  {
    match hb
    case None => offer == (0, 0)
    case Some(text) => exists l: Bytes, r: Bytes :: Offers(text, l, r, offer.0, offer.1)
  }

  ghost predicate GoodReply(c: FromServer, offer: (U32, U32))
  {
    c.Connected? && c.version == "1.2" && MakesOffer(c.heartbeat, offer)
  }

  lemma OfferParsed(hb: Option<Bytes>, offer: (U32, U32))
    ensures MakesOffer(hb, offer) <==> (if hb.Some? then ParseHeartbeat(hb.value) else Ok((0, 0))) == Ok(offer)
  {
    hide ParseHeartbeat, Offers;
    if hb.Some? {
      ParseHeartbeatIff(hb.value, offer.0, offer.1);
    }
  }

  lemma GoodIsAccepted(c: FromServer, extra: seq<Header>, requested: Option<(U32, U32)>, offer: (U32, U32))
    requires GoodReply(c, offer)
    ensures var both := Intervals(Offer(requested), offer);
            AcceptConnected(Some(Message(c, extra)), requested) == Accepted(both.0, both.1)
  {
    hide ParseHeartbeat, Offers;
    OfferParsed(c.heartbeat, offer);
  }

  lemma AcceptedIsGood(c: FromServer, extra: seq<Header>, requested: Option<(U32, U32)>) returns (offer: (U32, U32))
    requires AcceptConnected(Some(Message(c, extra)), requested).Accepted?
    ensures GoodReply(c, offer)
  {
    hide ParseHeartbeat, Offers, Negotiate;
    offer := if c.heartbeat.Some? then ParseHeartbeat(c.heartbeat.value).value else (0, 0);
    OfferParsed(c.heartbeat, offer);
  }

  /**
   * The right answer to a server message: it is accepted exactly when it is a CONNECTED for version 1.2 whose
   * `heart-beat` header, if any, makes an offer, and then with the intervals of the two offers; another version
   * is refused as such, and anything but a CONNECTED as unexpected.
   */
  ghost predicate Judged(c: FromServer, requested: Option<(U32, U32)>, r: Reply)
  {
    && (r.Accepted? <==> exists offer :: GoodReply(c, offer))
    && (forall offer :: GoodReply(c, offer) ==>
          var both := Intervals(Offer(requested), offer); r == Accepted(both.0, both.1))
    && (!c.Connected? <==> r.Unexpected?)
    && (c.Connected? && c.version != "1.2" <==> r.WrongVersion?)
    && (r.WrongVersion? ==> r.version == c.version)
  }

  /** Every reply is answered rightly, and the end of the stream is unexpected. */
  lemma {:induction false} ReplyVerdictIff(c: FromServer, extra: seq<Header>, requested: Option<(U32, U32)>)
    ensures Judged(c, requested, AcceptConnected(Some(Message(c, extra)), requested))
    ensures AcceptConnected(None, requested) == Unexpected
  {
    hide GoodReply, Intervals, Offer, ParseHeartbeat;
    forall offer | GoodReply(c, offer)
      ensures var both := Intervals(Offer(requested), offer);
              AcceptConnected(Some(Message(c, extra)), requested) == Accepted(both.0, both.1)
    {
      GoodIsAccepted(c, extra, requested, offer);
    }
    if AcceptConnected(Some(Message(c, extra)), requested).Accepted? {
      var offer := AcceptedIsGood(c, extra, requested);
    }
  }

  /** Through the wire: every printed server message, of whatever kind, is answered as the message itself. */
  lemma {:induction false} PrintedReplyVerdict(c: FromServer, others: seq<Header>, requested: Option<(U32, U32)>)
    requires ServerTextOk(c) && ServerNoShadow(c, others) && WireOk(Wire(ServerFrame(c, others)))
    requires c.Msg? ==> TextHeaders(ServerFrame(c, others).headers)
    ensures var parsed := FrameCore(Serialized(ServerFrame(c, others)));
            && parsed.Done? && var heard := ToServerMsg(parsed.value);
            && heard.Ok?
            && Judged(c, requested, AcceptConnected(Some(heard.value), requested))
  {
    hide FrameCore, Serialized, ToServerMsg, Wire, WireOk, ServerFrame, Judged, AcceptConnected;
    hide ServerTextOk, ServerNoShadow, TextHeaders;
    ServerRoundTrip(c, others, []);
    assert Serialized(ServerFrame(c, others)) + [] == Serialized(ServerFrame(c, others));
    var heard := ServerMessage(c, others);
    ReplyVerdictIff(heard.content, heard.extraHeaders, requested);
    SameJudgement(c, others, requested, AcceptConnected(Some(heard), requested));
  }

  /** Reading a server message back changes nothing that matters to the handshake. */
  lemma SameJudgement(c: FromServer, others: seq<Header>, requested: Option<(U32, U32)>, r: Reply)
    requires Judged(ServerReceived(c, others), requested, r)
    ensures Judged(c, requested, r)
  {
    hide Wire, ServerFrame, MakesOffer, Intervals, EscapedKeys;
    if !c.Connected? {
      assert forall offer :: !GoodReply(c, offer) && !GoodReply(ServerReceived(c, others), offer);
    }
  }

  /** A printed reply is accepted with the intervals that the two offers determine. */
  lemma {:induction false} ReplyAccepted(
    requested: Option<(U32, U32)>, offer: Option<(U32, U32)>, session: Option<Bytes>, server: Option<Bytes>,
    others: seq<Header>
  )
    requires var reply := ConnectedReply(offer, session, server);
             ServerTextOk(reply) && ServerNoShadow(reply, others) && WireOk(Wire(ServerFrame(reply, others)))
    ensures var parsed := FrameCore(Serialized(ServerFrame(ConnectedReply(offer, session, server), others)));
            && parsed.Done? && var heard := ToServerMsg(parsed.value);
            && heard.Ok?
            && var both := Intervals(Offer(requested), Offer(offer));
               AcceptConnected(Some(heard.value), requested) == Accepted(both.0, both.1)
  {
    hide FrameCore, Serialized, ToServerMsg, PrintHeartbeat, ParseHeartbeat, Wire, WireOk, ServerTextOk;
    hide ServerNoShadow, ServerFrame;
    var reply := ConnectedReply(offer, session, server);
    ServerRoundTrip(reply, others, []);
    assert Serialized(ServerFrame(reply, others)) + [] == Serialized(ServerFrame(reply, others));
    if offer.Some? {
      HeartbeatRoundTrip(offer.value);
    }
  }

  /**
   * Handshake agreement, for all 32-bit offers or none on either side: the server reads the client's
   * offer off the printed CONNECT, the client accepts the printed CONNECTED, and the intervals it
   * settles on are those the server computes from the offer it heard and its own.
   */
  lemma {:induction false} HandshakeAgreement(
    m: Message<ToServer>, offer: Option<(U32, U32)>, session: Option<Bytes>, server: Option<Bytes>, others: seq<Header>
  )
    requires m.content.Connect? && WellFormed(m) && Deliverable(m)
    requires var reply := ConnectedReply(offer, session, server);
             ServerTextOk(reply) && ServerNoShadow(reply, others) && WireOk(Wire(ServerFrame(reply, others)))
    ensures var connect := FrameCore(Serialized(ToFrame(m)));
            var reply := FrameCore(Serialized(ServerFrame(ConnectedReply(offer, session, server), others)));
            && connect.Done? && reply.Done?
            && var atServer, atClient := ToClientMsg(connect.value), ToServerMsg(reply.value);
            && atServer.Ok? && atClient.Ok? && atServer.value.content.Connect?
            && var serverSide := Intervals(Offer(atServer.value.content.heartbeat), Offer(offer));
            && atServer.value.content.heartbeat == m.content.heartbeat
            && AcceptConnected(Some(atClient.value), m.content.heartbeat) == Accepted(serverSide.0, serverSide.1)
  {
    hide FrameCore, Serialized, ToFrame, ToClientMsg, ToServerMsg, Received, WellFormed, Wire, WireOk, ServerFrame;
    hide ServerTextOk, ServerNoShadow, AcceptConnected, Intervals;
    MessageRoundTrip(m, []);
    assert Serialized(ToFrame(m)) + [] == Serialized(ToFrame(m));
    ReceivedIs(m);
    ReplyAccepted(m.content.heartbeat, offer, session, server, others);
  }

  lemma ReceivedIs(m: Message<ToServer>)
    requires !m.content.Send?
    ensures Received(m).content == m.content
  {
  }
}
