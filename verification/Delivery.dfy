/** End to end: from the items handed to the pump to the messages a peer decodes off the wire. */
module Delivery {
  import opened Octets
  import opened Frames
  import opened Grammar
  import opened Messages
  import opened RoundTrip
  import opened Decoding
  import opened SizeBound
  import opened Framing
  import opened PumpProtocol
  import opened PumpSafety

  /** Messages that make the round trip; heart-beats always do. */
  ghost predicate ItemOk(o: Outgoing)
  {
    o.Msg? ==> WellFormed(o.msg) && Deliverable(o.msg)
  }

  ghost predicate AllOk(items: seq<Outgoing>)
  {
    forall i :: 0 <= i < |items| ==> ItemOk(items[i])
  }

  /** What a peer makes of one item. */
  ghost function Seen(o: Outgoing): seq<Item<Message<ToServer>>>
  {
    match o
    case Msg(m) => [Item(Received(m), |Serialized(ToFrame(m))|)]
    case Beat => []
  }

  ghost function AllSeen(items: seq<Outgoing>): seq<Item<Message<ToServer>>>
  {
    if items == [] then [] else AllSeen(items[..|items| - 1]) + Seen(items[|items| - 1])
  }

  ghost predicate LogOk(log: seq<Entry>)
  {
    forall i :: 0 <= i < |log| ==> ItemOk(log[i].item) && (!log[i].own ==> log[i].item.Beat?)
  }

  lemma MessageReadable(m: Message<ToServer>)
    requires WellFormed(m) && Deliverable(m)
    ensures Readable(ToClientMsg, ToFrame(m))
    ensures ItemOf(ToClientMsg, ToFrame(m)) == Item(Received(m), |Serialized(ToFrame(m))|)
  {
    hide Received, ToClientMsg, Wire, WireOk, WellFormed, Serialized, ToFrame;
    ConvertBack(m);
  }

  /** A heart-beat on the wire is dropped by the peer, whatever comes next. */
  lemma BeatSkipped(tail: Bytes)
    ensures Drain(ToClientMsg, None, "\n" + tail) == Drain(ToClientMsg, None, tail)
  {
    hide ToClientMsg;
    var gap: Bytes := "\n";
    StripGap(gap, tail);
    DrainStripped(ToClientMsg, None, gap + tail, tail);
  }

  lemma DrainItem(o: Outgoing, tail: Bytes)
    requires ItemOk(o)
    ensures Drain(ToClientMsg, None, Encoded(o) + tail) == Prepend(Seen(o), Drain(ToClientMsg, None, tail))
  {
    hide Drain, WellFormed, Deliverable, Received, ToFrame, Serialized, Readable, ItemOf, ToClientMsg;
    match o
    case Beat =>
      BeatSkipped(tail);
      var d := Drain(ToClientMsg, None, tail);
      assert [] + d.items == d.items;
    case Msg(m) =>
      MessageReadable(m);
      DrainSerialized(ToClientMsg, None, [], ToFrame(m), tail);
      assert [] + (Serialized(ToFrame(m)) + tail) == Serialized(ToFrame(m)) + tail;
  }

  lemma {:induction false} DrainLog(log: seq<Entry>, tail: Bytes)
    requires LogOk(log)
    ensures Drain(ToClientMsg, None, Flat(log) + tail) ==
            Prepend(AllSeen(OwnItems(log)), Drain(ToClientMsg, None, tail))
    decreases |log|
  {
    hide Drain, Encoded, ItemOk, ToClientMsg, AllSeen, Seen, Flat, OwnItems;
    if log == [] {
      DrainNoLog(tail);
    } else {
      var first, e := log[..|log| - 1], log[|log| - 1];
      assert log == first + [e];
      FlatSnoc(first, e);
      Regroup(Flat(first), Encoded(e.item), tail);
      DrainLog(first, Encoded(e.item) + tail);
      DrainItem(e.item, tail);
      SeenSnoc(OwnItems(first), e);
      PrependAgain(AllSeen(OwnItems(first)), Seen(e.item), Drain(ToClientMsg, None, tail));
    }
  }

  lemma DrainNoLog(tail: Bytes)
    ensures Drain(ToClientMsg, None, Flat([]) + tail) ==
            Prepend(AllSeen(OwnItems([])), Drain(ToClientMsg, None, tail))
  {
    hide Drain, ToClientMsg;
    assert Flat([]) + tail == tail;
    var d := Drain(ToClientMsg, None, tail);
    assert [] + d.items == d.items;
  }

  lemma SeenSnoc(items: seq<Outgoing>, e: Entry)
    requires !e.own ==> e.item.Beat?
    ensures AllSeen(items + (if e.own then [e.item] else [])) == AllSeen(items) + Seen(e.item)
  {
    hide Received, Serialized, ToFrame;
    if e.own {
      assert (items + [e.item])[..|items|] == items;
    } else {
      assert items + [] == items && AllSeen(items) + [] == AllSeen(items);
    }
  }

  /** What the peer makes of the part of an item that is on the wire. */
  lemma DrainPart(o: Outgoing, done: Bytes, left: Bytes)
    requires ItemOk(o) && done + left == Encoded(o)
    ensures var d := Drain(ToClientMsg, None, done);
            d.status.Waiting? && d.items == if left == [] then Seen(o) else []
  {
    hide Drain, WellFormed, Deliverable, Received, ToFrame, Serialized, ToClientMsg;
    DrainNothing(ToClientMsg, None);
    if left == [] {
      DrainItem(o, []);
      assert done == Encoded(o) == Encoded(o) + [];
      assert Seen(o) + [] == Seen(o);
    } else if o.Beat? {
      assert done == [];
    } else {
      var f := ToFrame(o.msg);
      assert done == Serialized(f)[..|done|];
      CutMessage(o.msg, |done|);
    }
  }

  lemma CutMessage(m: Message<ToServer>, n: nat)
    requires Deliverable(m) && n < |Serialized(ToFrame(m))|
    ensures var d := Drain(ToClientMsg, None, Serialized(ToFrame(m))[..n]);
            d.status.Waiting? && d.items == []
  {
    hide Drain, ToFrame, Serialized, ToClientMsg, WireOk, Wire;
    DrainCut(ToClientMsg, None, ToFrame(m), n);
  }

  lemma {:induction false} OwnInLog(log: seq<Entry>, i: nat)
    requires i < |log| && log[i].own
    ensures log[i].item in OwnItems(log)
    decreases |log|
  {
    if i < |log| - 1 {
      OwnInLog(log[..|log| - 1], i);
    }
  }

  lemma WireLogOk(s: State)
    requires WireInv(s) && AllOk(s.handed)
    ensures LogOk(s.log)
  {
    hide Flat, Encoded, ItemOk, OwnItems;
    forall i | 0 <= i < |s.log| ensures ItemOk(s.log[i].item) {
      if s.log[i].own {
        OwnInLog(s.log, i);
        assert s.log[i].item in s.handed[..s.sent];
        var j :| 0 <= j < s.sent && s.handed[j] == s.log[i].item;
      } else {
        BeatOk();
      }
    }
  }

  lemma BeatOk()
    ensures ItemOk(Beat)
  {
  }

  /** The peer has the acknowledged items, or those and the one that is being written or failed. */
  ghost predicate Delivered(s: State, items: seq<Item<Message<ToServer>>>)
  {
    || (s.sent <= |s.handed| && items == AllSeen(s.handed[..s.sent]))
    || (&& s.sent < |s.handed| == |s.replies| && s.replies[s.sent] != Sent(true)
        && items == AllSeen(s.handed[..s.sent + 1]))
  }

  lemma WireDecodes(s: State)
    requires Inv(s) && AllOk(s.handed)
    ensures var d := Drain(ToClientMsg, None, s.wire);
            d.status.Waiting? && Delivered(s, d.items)
  {
    hide Drain, Flat, Encoded, ItemOk, OwnItems, AllSeen, Seen, ToClientMsg, CallerInv, ChannelInv;
    WireLogOk(s);
    DrainLog(s.log, s.done);
    var seen := AllSeen(s.handed[..s.sent]);
    assert seen + [] == seen;
    if s.current.None? {
      DrainNothing(ToClientMsg, None);
    } else {
      var e := s.current.value;
      if !e.own {
        BeatOk();
      }
      DrainPart(e.item, s.done, s.left);
      if e.own && s.left == [] {
        NextSeen(s);
      } else if s.left == [] {
        BeatSeen();
      }
    }
  }

  lemma BeatSeen()
    ensures Seen(Beat) == []
  {
  }

  lemma NextSeen(s: State)
    requires s.sent < |s.handed|
    ensures AllSeen(s.handed[..s.sent + 1]) == AllSeen(s.handed[..s.sent]) + Seen(s.handed[s.sent])
  {
    hide Seen;
    assert s.handed[..s.sent + 1] == s.handed[..s.sent] + [s.handed[s.sent]];
    assert s.handed[..s.sent + 1][..s.sent] == s.handed[..s.sent];
  }

  // A peer with a size bound

  ghost predicate AllWithin(items: seq<Outgoing>, max: nat)
  {
    forall i :: 0 <= i < |items| ==> |Encoded(items[i])| <= max
  }

  lemma SeenFits(o: Outgoing, max: nat)
    requires |Encoded(o)| <= max
    ensures AllFit(Seen(o), max)
  {
    hide Serialized, ToFrame, Received;
  }

  lemma {:induction false} AllSeenFits(items: seq<Outgoing>, max: nat)
    requires AllWithin(items, max)
    ensures AllFit(AllSeen(items), max)
  {
    hide Encoded, Seen;
    if items != [] {
      AllSeenFits(items[..|items| - 1], max);
      SeenFits(items[|items| - 1], max);
    }
  }

  /** The wire as it will be once the item being written is out: all of it decodes, and every frame fits. */
  lemma WireCompletes(s: State, max: nat)
    requires Inv(s) && AllOk(s.handed) && AllWithin(s.handed, max)
    ensures var d := Drain(ToClientMsg, None, s.wire + s.left);
            d.status.Waiting? && d.rest == [] && AllFit(d.items, max)
  {
    hide Drain, Flat, Encoded, ItemOk, OwnItems, AllSeen, Seen, ToClientMsg, CallerInv, ChannelInv, ReplyInv, AllFit;
    WireLogOk(s);
    Regroup(Flat(s.log), s.done, s.left);
    DrainLog(s.log, s.done + s.left);
    DrainNothing(ToClientMsg, None);
    var seen := AllSeen(s.handed[..s.sent]);
    AllSeenFits(s.handed[..s.sent], max);
    if s.current.None? {
      assert s.done + s.left == [];
      assert seen + [] == seen;
    } else {
      CurrentFits(s, max);
      var o := s.current.value.item;
      DrainItem(o, []);
      assert Encoded(o) + [] == Encoded(o);
      assert Seen(o) + [] == Seen(o);
      BothFit(seen, Seen(o), max);
    }
  }

  lemma BothFit<M(!new)>(a: seq<Item<M>>, b: seq<Item<M>>, max: nat)
    requires AllFit(a, max) && AllFit(b, max)
    ensures AllFit(a + b, max)
  {
  }

  lemma CurrentFits(s: State, max: nat)
    requires WireInv(s) && AllOk(s.handed) && AllWithin(s.handed, max) && s.current.Some?
    ensures ItemOk(s.current.value.item) && AllFit(Seen(s.current.value.item), max)
  {
    hide Flat, Encoded, OwnItems, ItemOk;
    BeatOk();
    if s.current.value.own {
      SeenFits(s.current.value.item, max);
    }
  }

  lemma NeverTooLarge(s: State, max: nat, chunks: seq<Bytes>)
    requires Inv(s) && AllOk(s.handed) && AllWithin(s.handed, max) && Flatten(chunks) == s.wire
    ensures !Feed(ToClientMsg, Some(max), [], chunks).status.TooLarge?
  {
    hide Inv, Drain, Feed, AllOk, AllWithin, ToClientMsg, AllFit;
    WireCompletes(s, max);
    FittingStreamNeverRefused(ToClientMsg, max, chunks, s.left);
  }

  /** In every state a bounded peer, in whatever reads the wire arrives, has what was delivered. */
  lemma {:induction false} PeerDelivers(s: State, max: nat, chunks: seq<Bytes>)
    requires Inv(s) && AllOk(s.handed) && AllWithin(s.handed, max) && Flatten(chunks) == s.wire
    ensures var peer := Feed(ToClientMsg, Some(max), [], chunks);
            peer.status.Waiting? && Delivered(s, peer.items)
  {
    hide Inv, Drain, Feed, Delivered, AllOk, AllWithin, ToClientMsg;
    WireDecodes(s);
    NeverTooLarge(s, max, chunks);
    ChunkingInvariance(ToClientMsg, Some(max), chunks);
    DrainBounded(ToClientMsg, max, s.wire);
  }

  /**
   * End-to-end delivery: in every run, a peer that decodes the wire, in whatever reads it arrives, has
   * exactly the messages acknowledged as written, in order, and at most the one item after them that is
   * still being written or was reported as failed. Its stream never fails, provided that its size bound
   * admits each item by itself.
   */
  lemma {:induction false} EndToEnd(beats: bool, acts: seq<Action>, t: State, max: nat, chunks: seq<Bytes>)
    requires Reachable(beats, acts, t) && AllOk(t.handed) && AllWithin(t.handed, max) && Flatten(chunks) == t.wire
    ensures var peer := Feed(ToClientMsg, Some(max), [], chunks);
            peer.status.Waiting? && Delivered(t, peer.items)
    ensures forall i :: 0 <= i < |t.results| <= |t.handed| ==> (t.results[i].Written? <==> i < t.sent)
  {
    hide Inv, Feed, Reachable, Delivered, AllOk, AllWithin, ToClientMsg;
    ReachableInv(beats, acts, t);
    ResultsInOrder(beats, acts, t);
    PeerDelivers(t, max, chunks);
  }
}
