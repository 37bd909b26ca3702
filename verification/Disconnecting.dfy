/** The clean shutdown: `disconnect` over a pumped connection. */
module Disconnecting {
  import opened Octets
  import opened Frames
  import opened Parsing
  import opened Messages
  import opened RoundTrip
  import opened Exactness
  import opened ComingBack
  import Utf8
  import opened PumpProtocol
  import opened PumpHandle
  import opened PumpSession

  /** What the stream yields next: a message, a failure, or its end. */
  datatype Event = Incoming(content: FromServer) | StreamFailed | StreamEnded

  datatype Ending = Clean | SendFailed | StillSending | Refused | Broken | Ended | StillWaiting | CloseFailed

  predicate Matches(e: Event, receipt: Bytes)
  {
    e.Incoming? && e.content.Receipt? && e.content.receiptId == receipt
  }

  /** Events that end the wait; everything else is discarded. */
  predicate Decisive(e: Event, receipt: Bytes)
  {
    Matches(e, receipt) || !e.Incoming? || e.content.Error?
  }

  /** The position of the first decisive event, or the length if there is none yet. */
  function FirstDecisive(events: seq<Event>, receipt: Bytes): (k: nat)
    ensures k <= |events|
    ensures k < |events| ==> Decisive(events[k], receipt)
    ensures forall i :: 0 <= i < k ==> !Decisive(events[i], receipt)
  {
    if events == [] || Decisive(events[0], receipt) then 0 else 1 + FirstDecisive(events[1..], receipt)
  }

  /** How the wait for the receipt ends. */
  function Verdict(events: seq<Event>, receipt: Bytes): Ending
  {
    var k := FirstDecisive(events, receipt);
    if k == |events| then StillWaiting
    else if Matches(events[k], receipt) then Clean
    else if events[k].StreamFailed? then Broken
    else if events[k].StreamEnded? then Ended
    else Refused
  }

  /** The matching RECEIPT comes before any ERROR, failure or end of the stream. */
  predicate ReceiptFirst(events: seq<Event>, receipt: Bytes)
  {
    exists k :: 0 <= k < |events| && Matches(events[k], receipt) &&
      forall i :: 0 <= i < k ==> events[i].Incoming? && !events[i].content.Error?
  }

  /** Something the wait discards: neither the matching RECEIPT nor an ERROR, and not the end of the stream. */
  predicate Discarded(e: Event, receipt: Bytes)
  {
    e.Incoming? && !e.content.Error? && !Matches(e, receipt)
  }

  /** Everything before event `k` is discarded. */
  predicate Reaches(events: seq<Event>, receipt: Bytes, k: nat)
  {
    k <= |events| && forall i :: 0 <= i < k ==> Discarded(events[i], receipt)
  }

  /** Event `k` is the first that is not discarded. */
  predicate FirstKept(events: seq<Event>, receipt: Bytes, k: nat)
  {
    Reaches(events, receipt, k) && k < |events| && !Discarded(events[k], receipt)
  }

  lemma NotBefore(events: seq<Event>, receipt: Bytes, k: nat, d: nat)
    requires Reaches(events, receipt, k) && d < |events| && Decisive(events[d], receipt)
    ensures k <= d
  {
  }

  lemma FirstKeptIsDecisive(events: seq<Event>, receipt: Bytes, k: nat)
    ensures Reaches(events, receipt, FirstDecisive(events, receipt))
    ensures FirstKept(events, receipt, k) <==> k == FirstDecisive(events, receipt) < |events|
  {
    var d := FirstDecisive(events, receipt);
    if FirstKept(events, receipt, k) {
      NotBefore(events, receipt, k, d);
    }
  }

  /** How the wait ends, by the first event that is not discarded. */
  lemma {:induction false} VerdictIff(events: seq<Event>, receipt: Bytes)
    ensures var v := Verdict(events, receipt);
            && (v.Clean? <==> exists k: nat :: FirstKept(events, receipt, k) && Matches(events[k], receipt))
            && (v.Refused? <==>
                  exists k: nat ::
                    FirstKept(events, receipt, k) && events[k].Incoming? && events[k].content.Error?)
            && (v.Broken? <==> exists k: nat :: FirstKept(events, receipt, k) && events[k].StreamFailed?)
            && (v.Ended? <==> exists k: nat :: FirstKept(events, receipt, k) && events[k].StreamEnded?)
            && (v.StillWaiting? <==> Reaches(events, receipt, |events|))
  {
    hide FirstDecisive;
    var d := FirstDecisive(events, receipt);
    forall k: nat ensures FirstKept(events, receipt, k) <==> k == d < |events| {
      FirstKeptIsDecisive(events, receipt, k);
    }
    FirstKeptIsDecisive(events, receipt, d);
    if d < |events| {
      assert FirstKept(events, receipt, d) && Decisive(events[d], receipt);
    }
  }

  lemma CleanIff(events: seq<Event>, receipt: Bytes)
    ensures Verdict(events, receipt).Clean? <==> ReceiptFirst(events, receipt)
  {
    var d := FirstDecisive(events, receipt);
    if Verdict(events, receipt).Clean? {
      assert Matches(events[d], receipt);
    }
    if k :| 0 <= k < |events| && Matches(events[k], receipt) &&
            forall i :: 0 <= i < k ==> events[i].Incoming? && !events[i].content.Error?
    {
      assert d <= k;
    }
  }

  lemma DecidedAt(events: seq<Event>, receipt: Bytes, k: nat)
    requires k < |events| && Decisive(events[k], receipt)
    requires forall i :: 0 <= i < k ==> !Decisive(events[i], receipt)
    ensures FirstDecisive(events, receipt) == k
  {
  }

  /** A verdict once reached does not depend on anything that arrives later. */
  lemma VerdictFinal(events: seq<Event>, more: seq<Event>, receipt: Bytes)
    requires !Verdict(events, receipt).StillWaiting?
    ensures Verdict(events + more, receipt) == Verdict(events, receipt)
  {
    var k := FirstDecisive(events, receipt);
    assert (events + more)[k] == events[k];
    assert forall i :: 0 <= i < k ==> (events + more)[i] == events[i];
    DecidedAt(events + more, receipt, k);
  }

  lemma WaitIsNotSend(events: seq<Event>, receipt: Bytes)
    ensures !Verdict(events, receipt).SendFailed? && !Verdict(events, receipt).StillSending?
  {
  }

  function Farewell(receipt: Bytes): Outgoing
  {
    Outgoing.Msg(Message(ToServer.Disconnect(Some(receipt)), []))
  }

  lemma FarewellHeaders(receipt: Bytes)
    ensures HeadersOf(Farewell(receipt).msg) == [Header("receipt", receipt)]
  {
    var own := Present(FieldsOf(Farewell(receipt).msg.content));
    var fields := [Field("receipt", Some(receipt))];
    assert fields[1..] == [];
    assert Present(fields) == [Header("receipt", receipt)] + Present([]);
    assert own + [] == own;
  }

  lemma FarewellWellFormed(receipt: Bytes)
    requires Utf8.Valid(receipt)
    ensures WellFormed(Farewell(receipt).msg)
  {
    hide HeadersOf, FetchRaw, Utf8.Valid;
  }

  lemma FarewellDelimited(receipt: Bytes)
    ensures BodyDelimited(ToFrame(Farewell(receipt).msg))
  {
    hide HeadersOf, GetContentLength;
    FarewellHeaders(receipt);
    var hs := HeadersOf(Farewell(receipt).msg);
    FindAbsent(hs, "content-length");
    LengthIsFound(hs);
  }

  lemma FarewellDeliverable(receipt: Bytes)
    ensures Deliverable(Farewell(receipt).msg)
  {
    hide HeadersOf, BodyDelimited, Deliverable, ToFrame;
    FarewellHeaders(receipt);
    FarewellDelimited(receipt);
    DeliverableIff(Farewell(receipt).msg);
  }

  lemma FarewellNormal(receipt: Bytes)
    ensures Received(Farewell(receipt).msg) == Message(ToServer.Disconnect(Some(receipt)), [])
  {
    hide HeadersOf, Others, HeadersAreEscaped;
    FarewellHeaders(receipt);
    NoOthers(HeadersOf(Farewell(receipt).msg), ExpectedKeys(IsDisconnect));
  }

  /** A server that reads the farewell hears the receipt it has to send. */
  lemma {:induction false} FarewellIsHeard(receipt: Bytes, rest: Bytes)
    requires Utf8.Valid(receipt)
    ensures var p := FrameCore(Encoded(Farewell(receipt)) + rest);
            && p.Done? && p.used == |Encoded(Farewell(receipt))|
            && ToClientMsg(p.value) == Ok(Message(ToServer.Disconnect(Some(receipt)), []))
  {
    hide FrameCore, Serialized, ToFrame, ToClientMsg, Utf8.Valid, Received, WellFormed, Deliverable;
    FarewellWellFormed(receipt);
    FarewellDeliverable(receipt);
    FarewellNormal(receipt);
    MessageRoundTrip(Farewell(receipt).msg, rest);
  }

  /** `item` is the one item handed over since, and all items have been written. */
  ghost predicate WrittenSince(handed: seq<Outgoing>, item: Outgoing, s: State)
  {
    s.handed == handed + [item] && s.sent == |s.handed|
  }

  lemma StaysWritten(handed: seq<Outgoing>, item: Outgoing, s: State, t: State)
    requires WrittenSince(handed, item, s) && Inv(t) && t.handed == s.handed && s.sent <= t.sent
    ensures WrittenSince(handed, item, t)
  {
    hide WireInv, CallerInv, ChannelInv;
  }

  lemma WrittenOnWire(handed: seq<Outgoing>, item: Outgoing, s: State)
    requires WrittenSince(handed, item, s) && Inv(s)
    ensures OnWire(s, item)
  {
    hide Inv, OnWire;
    SentIsOnWire(s);
  }

  /** A connection: its pumped write side, and the events that have arrived and not been taken. */
  class Connection {
    const session: Session
    var incoming: seq<Event>

    constructor (session: Session, events: seq<Event>)
      ensures this.session == session && incoming == events
    {
      this.session, incoming := session, events;
    }

    /**
     * Sends DISCONNECT and waits for its receipt, the pump task going on in between; then closes. It ends well
     * exactly when the DISCONNECT has been written and the receipt comes first. Then the whole DISCONNECT is
     * on the wire, the channel is closed, and nothing is left in it. Nothing beyond the decisive event is
     * taken from the stream.
     */
    method Disconnect(receipt: Bytes) returns (r: Ending)
      requires session.Valid()
      modifies this, session, session.pump, session.worker, session.pump.tx, session.acks
      ensures session.Valid()
      ensures var handed, item, s := old(session.state.handed), Farewell(receipt), session.state;
              && (r.Clean? <==> WrittenSince(handed, item, s) && ReceiptFirst(old(incoming), receipt))
              && (r.Clean? ==> OnWire(s, item) && s.closed && s.queue == [] && |s.results| == |s.handed|)
              && (if WrittenSince(handed, item, s) then r == Verdict(old(incoming), receipt)
                  else r.SendFailed? || (r.StillSending? && session.script == []))
              && (r.SendFailed? ==> ClosedOrEnding(s)) && (r.StillSending? ==> AwaitsReply(s))
              && incoming ==
                 if !WrittenSince(handed, item, s) then old(incoming)
                 else
                   var k := FirstDecisive(old(incoming), receipt);
                   if k == |old(incoming)| then [] else old(incoming)[k + 1..]
    {
      hide Inv, OnWire, ReceiptFirst, Verdict, InState, Run;
      CleanIff(incoming, receipt);
      WaitIsNotSend(incoming, receipt);
      var sent := session.Send(Farewell(receipt));
      if sent.None? {
        return StillSending;
      }
      if !sent.value {
        return SendFailed;
      }
      ghost var acks := session.acks;
      assert forall i :: 0 <= i < |acks| ==> acks[i] in old(session.acks) || fresh(acks[i]);
      r := AwaitReceipt(receipt, old(session.state.handed));
      if r.Clean? {
        r := CloseDown(receipt, old(session.state.handed));
      }
    }

    /** Takes events until one is decisive. */
    method AwaitReceipt(receipt: Bytes, ghost handed: seq<Outgoing>) returns (r: Ending)
      requires session.Valid() && WrittenSince(handed, Farewell(receipt), session.state) && session.state.pending.None?
      modifies this, session, session.worker, session.pump.tx, session.acks
      ensures session.Valid() && WrittenSince(handed, Farewell(receipt), session.state) && session.state.pending.None?
      ensures session.acks == old(session.acks)
      ensures r == Verdict(old(incoming), receipt)
      ensures var k := FirstDecisive(old(incoming), receipt);
              incoming == if k == |old(incoming)| then [] else old(incoming)[k + 1..]
    {
      hide InState, Run, Inv;
      ghost var k := 0;
      while incoming != []
        invariant session.Valid() && session.state.pending.None?
        invariant WrittenSince(handed, Farewell(receipt), session.state)
        invariant session.acks == old(session.acks)
        invariant k <= |old(incoming)| && incoming == old(incoming)[k..]
        invariant forall i :: 0 <= i < k ==> !Decisive(old(incoming)[i], receipt)
        decreases |incoming|
      {
        Idle(receipt, handed);
        var e := incoming[0];
        incoming := incoming[1..];
        if Decisive(e, receipt) {
          DecidedAt(old(incoming), receipt, k);
          return
            if e.StreamFailed? then Broken
            else if e.StreamEnded? then Ended
            else if Matches(e, receipt) then Clean
            else Refused;
        }
        k := k + 1;
      }
      return StillWaiting;
    }

    /** The pump task goes on while the caller reads. */
    method Idle(receipt: Bytes, ghost handed: seq<Outgoing>)
      requires session.Valid() && WrittenSince(handed, Farewell(receipt), session.state) && session.state.pending.None?
      modifies session, session.worker, session.pump.tx, session.acks
      ensures session.Valid() && WrittenSince(handed, Farewell(receipt), session.state) && session.state.pending.None?
      ensures session.acks == old(session.acks)
    {
      hide InState, Run, Inv;
      if session.script != [] {
        session.Turn();
        StaysWritten(handed, Farewell(receipt), old(session.state), session.state);
      }
    }

    /** With every item settled, closing succeeds. */
    method CloseDown(receipt: Bytes, ghost handed: seq<Outgoing>) returns (r: Ending)
      requires session.Valid() && WrittenSince(handed, Farewell(receipt), session.state) && session.state.pending.None?
      modifies session, session.pump, session.worker, session.pump.tx, session.acks
      ensures session.Valid() && r.Clean?
      ensures var s := session.state;
              && WrittenSince(handed, Farewell(receipt), s) && OnWire(s, Farewell(receipt))
              && s.closed && s.queue == [] && |s.results| == |s.handed|
    {
      hide InState, Run, Inv, OnWire;
      var closed := session.Close();
      StaysWritten(handed, Farewell(receipt), old(session.state), session.state);
      WrittenOnWire(handed, Farewell(receipt), session.state);
      return if closed == Some(true) then Clean else CloseFailed;
    }
  }
}
