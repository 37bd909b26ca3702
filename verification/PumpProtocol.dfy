/**
 * The write pump: the caller's `Pump`, the channel, the oneshot acknowledgements and the `write_pump`
 * task, as a transition system over every interleaving of their polls and steps.
 */
module PumpProtocol {
  import opened Octets
  import opened Frames
  import opened Messages

  datatype Outgoing = Msg(msg: Message<ToServer>) | Beat

  function Encoded(o: Outgoing): Bytes
  {
    match o
    case Msg(m) => Serialized(ToFrame(m))
    case Beat => "\n"
  }

  /** What the pump has put on the wire: the caller's items and the beats of its own. */
  datatype Entry = Entry(own: bool, item: Outgoing)

  /** A oneshot: nothing yet, the result of the write, or dropped by the pump. */
  datatype Reply = Unsent | Sent(ok: bool) | Cancelled

  /** What the caller learns of an item. */
  datatype Outcome = Written | WriteFailed | ConnectionClosed

  datatype Phase = Waiting | Writing(id: nat) | Beating | Closing | Stopped

  /** Items are numbered in the order they are handed over. */
  datatype State = State(
    // The caller's side
    alive: bool,               // the transport has not been dropped
    granted: bool,             // `poll_ready` succeeded and its permit has not been used
    pending: Option<nat>,      // the item whose oneshot the caller holds
    results: seq<Outcome>,     // results observed, in order
    // The channel
    closed: bool,              // the sending side has been closed or dropped
    queue: seq<nat>,
    // The pump
    beats: bool,               // an outgoing interval was negotiated
    phase: Phase,
    current: Option<Entry>,    // what is in the writer's buffer
    done: Bytes,               // the part of it that is on the wire
    left: Bytes,               // and the part that is not
    // History
    handed: seq<Outgoing>,
    replies: seq<Reply>,
    wire: Bytes,
    log: seq<Entry>,           // written and flushed
    sent: nat,                 // items acknowledged as written
    failed: bool               // some write failed, or the pump task was torn down
  )

  function Init(beats: bool): State
  {
    State(true, false, None, [], false, [], beats, Waiting, None, [], [], [], [], [], [], 0, false)
  }

  datatype Action =
    // Polls by the caller
    | PollReady | StartSend(item: Outgoing) | PollFlush | PollClose | DropTransport
    // Steps of the pump
    | Take | ChannelEnd | Timeout | WriteSome(n: nat) | WriteDone | WriteFail | CloseDone | TaskDropped

  datatype Poll = Pending | Ready(ok: bool)

  function OutcomeOf(r: Reply): Outcome
  {
    match r
    case Sent(true) => Written
    case Sent(false) => WriteFailed
    case _ => ConnectionClosed
  }

  /** The receiver lives until the pump task returns, so items can still be queued while it is closing. */
  predicate Disconnected(s: State)
  {
    s.closed || s.phase.Stopped?
  }

  /** `Pump::poll_flush`: settles the item in flight, if its oneshot has an answer. */
  function Settle(s: State): (State, Poll)
  {
    if s.pending.None? || s.pending.value >= |s.replies| then (s, Ready(true))
    else
      var reply := s.replies[s.pending.value];
      if reply.Unsent? then (s, Pending)
      else
        (s.(pending := None, results := s.results + [OutcomeOf(reply)]), Ready(OutcomeOf(reply).Written?))
  }

  /** `Pump::poll_ready`: settle first, then ask the channel for a slot. */
  function TryReady(s: State): (State, Poll)
  {
    var (t, p) := Settle(s);
    if p != Ready(true) then (t, p)
    else if Disconnected(t) then (t, Ready(false))
    else if |t.queue| > 1 then (t, Pending)
    else (t.(granted := true), Ready(true))
  }

  /** `Pump::start_send`: the channel takes the item along with a fresh oneshot. */
  function TrySend(s: State, item: Outgoing): (State, Poll)
  {
    if Disconnected(s) || |s.queue| > 1 then (s.(granted := false), Ready(false))
    else
      var id := |s.handed|;
      (s.(granted := false, pending := Some(id), queue := s.queue + [id],
          handed := s.handed + [item], replies := s.replies + [Unsent]),
       Ready(true))
  }

  /** `poll_close` on a pumped connection: flush, then close the channel. */
  function TryClose(s: State): (State, Poll)
  {
    var (t, p) := Settle(s);
    if p != Ready(true) then (t, p) else (t.(closed := true), Ready(true))
  }

  /** The answer a caller's poll gets. */
  function Answer(s: State, a: Action): Poll
  {
    match a
    case PollReady => TryReady(s).1
    case StartSend(item) => TrySend(s, item).1
    case PollFlush => Settle(s).1
    case PollClose => TryClose(s).1
    case _ => Pending
  }

  /** The Sink contract for callers, and what each pump step waits for. */
  predicate Enabled(s: State, a: Action)
  {
    match a
    case PollReady | PollFlush | PollClose | DropTransport => s.alive
    case StartSend(_) => s.alive && s.granted
    case Take => s.phase.Waiting? && s.queue != [] && s.queue[0] < |s.handed|
    case ChannelEnd => s.phase.Waiting? && s.queue == [] && s.closed
    // an item, or the end of the channel, that is there when the timer fires comes first
    case Timeout => s.phase.Waiting? && s.beats && s.queue == [] && !s.closed
    case WriteSome(n) => (s.phase.Writing? || s.phase.Beating? || s.phase.Closing?) && n <= |s.left|
    case WriteDone => (s.phase.Writing? || s.phase.Beating?) && s.left == []
    case WriteFail => s.phase.Writing? || s.phase.Beating?
    case CloseDone => s.phase.Closing?
    case TaskDropped => !s.phase.Stopped?
  }

  function Replied(s: State, id: nat, r: Reply): seq<Reply>
  {
    if id < |s.replies| then s.replies[id := r] else s.replies
  }

  /** Dropping the receiver drops the oneshots of whatever is still queued. */
  function CancelAll(replies: seq<Reply>, ids: seq<nat>): seq<Reply>
    decreases |ids|
  {
    if ids == [] then replies
    else CancelAll(if ids[0] < |replies| then replies[ids[0] := Cancelled] else replies, ids[1..])
  }

  function StartWriting(s: State, phase: Phase, e: Entry): State
  {
    s.(phase := phase, current := Some(e), done := [], left := Encoded(e.item))
  }

  /** The socket takes some of the buffered octets. */
  function WriteMore(s: State, n: nat): State
    requires n <= |s.left|
  {
    s.(wire := s.wire + s.left[..n], done := s.done + s.left[..n], left := s.left[n..])
  }

  function FinishWrite(s: State): State
  {
    var t := s.(phase := Waiting, current := None, done := [], left := [],
                log := if s.current.Some? then s.log + [s.current.value] else s.log);
    match s.phase
    case Writing(id) => t.(replies := Replied(s, id, Sent(true)), sent := s.sent + 1)
    case _ => t
  }

  function FailWrite(s: State): State
  {
    var t := s.(phase := Closing, failed := true);
    match s.phase
    case Writing(id) => t.(replies := Replied(s, id, Sent(false)))
    case _ => t
  }

  function Stop(s: State): State
  {
    s.(phase := Stopped, queue := [], replies := CancelAll(s.replies, s.queue))
  }

  /** The pump task is dropped at some await point, along with the oneshot it holds and its receiver. */
  function Teardown(s: State): State
  {
    var t := match s.phase
             case Writing(id) => s.(replies := Replied(s, id, Cancelled))
             case _ => s;
    Stop(t).(failed := true)
  }

  function Next(s: State, a: Action): State
    requires Enabled(s, a)
  {
    match a
    case PollReady => TryReady(s).0
    case StartSend(item) => TrySend(s, item).0
    case PollFlush => Settle(s).0
    case PollClose => TryClose(s).0
    case DropTransport => s.(alive := false, closed := true)
    case Take => StartWriting(s, Writing(s.queue[0]), Entry(true, s.handed[s.queue[0]])).(queue := s.queue[1..])
    case ChannelEnd => s.(phase := Closing)
    case Timeout => StartWriting(s, Beating, Entry(false, Beat))
    case WriteSome(n) => WriteMore(s, n)
    case WriteDone => FinishWrite(s)
    case WriteFail => FailWrite(s)
    case CloseDone => Stop(s)
    case TaskDropped => Teardown(s)
  }

  ghost predicate Run(s: State, acts: seq<Action>, t: State)
    decreases |acts|
  {
    if acts == [] then t == s
    else Enabled(s, acts[0]) && Run(Next(s, acts[0]), acts[1..], t)
  }

  predicate ByCaller(a: Action)
  {
    a.PollReady? || a.StartSend? || a.PollFlush? || a.PollClose? || a.DropTransport?
  }

  lemma {:induction false} RunSnoc(s: State, acts: seq<Action>, t: State, a: Action)
    requires Run(s, acts, t) && Enabled(t, a)
    ensures Run(s, acts + [a], Next(t, a))
    decreases |acts|
  {
    hide Next, Enabled;
    if acts == [] {
      assert (acts + [a])[1..] == [];
    } else {
      RunSnoc(Next(s, acts[0]), acts[1..], t, a);
      assert (acts + [a])[1..] == acts[1..] + [a];
    }
  }

  // The invariant

  function Flat(log: seq<Entry>): Bytes
  {
    if log == [] then [] else Flat(log[..|log| - 1]) + Encoded(log[|log| - 1].item)
  }

  function OwnItems(log: seq<Entry>): seq<Outgoing>
  {
    if log == [] then []
    else
      var e := log[|log| - 1];
      OwnItems(log[..|log| - 1]) + (if e.own then [e.item] else [])
  }

  predicate AwaitsReply(s: State)
  {
    s.pending.Some? && s.pending.value < |s.replies| && s.replies[s.pending.value].Unsent?
  }

  predicate Live(s: State)
  {
    s.phase.Waiting? || s.phase.Writing? || s.phase.Beating?
  }

  /** The caller has every result but that of the item it holds a oneshot for, each once and in order. */
  ghost predicate CallerInv(s: State)
  {
    && |s.replies| == |s.handed|
    && |s.results| == (if s.pending.Some? then |s.handed| - 1 else |s.handed|)
    && (s.pending.Some? ==> s.pending.value == |s.handed| - 1)
    && (forall i :: 0 <= i < |s.results| ==> !s.replies[i].Unsent? && s.results[i] == OutcomeOf(s.replies[i]))
    && (s.granted ==> s.pending.None?)
  }

  /** An item without a reply is in the channel or with the pump, and nothing else is. */
  ghost predicate ChannelInv(s: State)
  {
    && |s.replies| == |s.handed|
    && (if !AwaitsReply(s) then s.queue == [] && !s.phase.Writing?
        else if s.phase.Writing? then s.queue == [] && s.phase.id == s.pending.value
        else s.queue == [s.pending.value])
    && (s.phase.Stopped? ==> s.queue == [])
  }

  /** The items acknowledged as written are exactly the first `sent`. */
  ghost predicate ReplyInv(s: State)
  {
    && |s.replies| == |s.handed| && s.sent <= |s.handed|
    && (forall i :: 0 <= i < |s.replies| ==> (s.replies[i] == Sent(true) <==> i < s.sent))
    && (Live(s) ==> !s.failed && forall i :: s.sent <= i < |s.replies| ==> s.replies[i].Unsent?)
  }

  /** The wire is whole items in hand-over order with beats between them, then part of at most one more. */
  ghost predicate WireInv(s: State)
  {
    && s.wire == Flat(s.log) + s.done
    && s.sent <= |s.handed| && OwnItems(s.log) == s.handed[..s.sent]
    && (s.current.None? ==> s.done == [] && s.left == [])
    && (s.current.Some? ==> s.done + s.left == Encoded(s.current.value.item))
    && (s.current.Some? && !s.current.value.own ==> s.current.value.item.Beat?)
    && (s.current.Some? && s.current.value.own ==> s.sent < |s.handed| && s.current.value.item == s.handed[s.sent])
    && (forall i :: 0 <= i < |s.log| && !s.log[i].own ==> s.log[i].item.Beat?)
    && (s.phase.Waiting? ==> s.current.None?)
    && (s.phase.Writing? ==> s.current.Some? && s.current.value.own && s.phase.id == s.sent)
    && (s.phase.Beating? ==> s.current.Some? && !s.current.value.own)
  }

  ghost predicate Inv(s: State)
  {
    CallerInv(s) && ChannelInv(s) && ReplyInv(s) && WireInv(s)
  }

  lemma InitInv(beats: bool)
    ensures Inv(Init(beats))
  {
  }

  // Steps of the caller

  lemma SettleInv(s: State)
    requires Inv(s)
    ensures Inv(Settle(s).0)
    ensures Settle(s).1 == Ready(true) ==> Settle(s).0.pending.None?
  {
    hide Flat, OwnItems, Encoded, WireInv;
    var t := Settle(s).0;
    SameWire(s, t);
  }

  /** The wire part of the invariant only looks at the pump. */
  lemma SameWire(s: State, t: State)
    requires WireInv(s)
    requires t.wire == s.wire && t.log == s.log && t.done == s.done && t.left == s.left && t.current == s.current
    requires t.phase == s.phase && t.sent == s.sent && s.handed <= t.handed
    ensures WireInv(t)
  {
    hide Flat, OwnItems, Encoded;
    assert t.handed[..t.sent] == s.handed[..s.sent];
  }

  lemma ReadyInv(s: State)
    requires Inv(s)
    ensures Inv(TryReady(s).0)
    ensures TryReady(s).1 == Ready(true) ==> TryReady(s).0.queue == [] && !TryReady(s).0.phase.Writing?
  {
    hide Settle, WireInv;
    SettleInv(s);
    SameWire(Settle(s).0, TryReady(s).0);
  }

  lemma SendInv(s: State, item: Outgoing)
    requires Inv(s) && s.granted
    ensures Inv(TrySend(s, item).0)
  {
    hide WireInv;
    SameWire(s, TrySend(s, item).0);
    assert s.queue == [] && !s.phase.Writing?;
  }

  lemma CloseInv(s: State)
    requires Inv(s)
    ensures Inv(TryClose(s).0)
  {
    hide Settle, WireInv;
    SettleInv(s);
    SameWire(Settle(s).0, TryClose(s).0);
  }

  lemma DropInv(s: State)
    requires Inv(s)
    ensures Inv(s.(alive := false, closed := true))
  {
    hide WireInv;
    SameWire(s, s.(alive := false, closed := true));
  }

  // Steps of the pump

  /** The item without a reply is the next one to be acknowledged. */
  lemma NextInLine(s: State)
    requires CallerInv(s) && ReplyInv(s) && Live(s) && AwaitsReply(s)
    ensures s.sent == s.pending.value == |s.handed| - 1
  {
    assert s.sent < |s.handed| ==> s.replies[s.sent].Unsent?;
    assert s.replies[s.pending.value] != Sent(true);
  }

  lemma TakeInv(s: State)
    requires Inv(s) && Enabled(s, Take)
    ensures Inv(Next(s, Take))
  {
    hide Flat, OwnItems, Encoded;
    NextInLine(s);
    var item := s.handed[s.queue[0]];
    assert [] + Encoded(item) == Encoded(item);
  }

  lemma BeatInv(s: State)
    requires Inv(s) && Enabled(s, Timeout)
    ensures Inv(Next(s, Timeout))
  {
    hide Flat, OwnItems, Encoded;
    assert [] + Encoded(Beat) == Encoded(Beat);
  }

  lemma ChannelEndInv(s: State)
    requires Inv(s) && Enabled(s, ChannelEnd)
    ensures Inv(Next(s, ChannelEnd))
  {
    hide Flat, OwnItems, Encoded;
  }

  lemma WriteSomeInv(s: State, n: nat)
    requires n <= |s.left| && Inv(s)
    ensures Inv(WriteMore(s, n))
  {
    hide Flat, OwnItems, Encoded;
    var t := WriteMore(s, n);
    Regroup(Flat(s.log), s.done, s.left[..n]);
    Regroup(s.done, s.left[..n], s.left[n..]);
    assert s.left == s.left[..n] + s.left[n..];
    assert WireInv(t);
    hide WireInv;
  }

  lemma FlatSnoc(log: seq<Entry>, e: Entry)
    ensures Flat(log + [e]) == Flat(log) + Encoded(e.item)
    ensures OwnItems(log + [e]) == OwnItems(log) + (if e.own then [e.item] else [])
  {
    hide Encoded;
    assert (log + [e])[..|log|] == log;
  }

  lemma WriteDoneWire(s: State)
    requires WireInv(s) && Enabled(s, WriteDone)
    ensures WireInv(FinishWrite(s))
  {
    hide Flat, OwnItems, Encoded;
    var e, t := s.current.value, FinishWrite(s);
    var log := s.log + [e];
    FlatSnoc(s.log, e);
    WholeItem(s.wire, Flat(s.log), s.done, s.left, Encoded(e.item));
    assert t.log == log && t.wire == Flat(log) + [];
    assert OwnItems(t.log) == t.handed[..t.sent] by {
      if e.own {
        assert s.handed[..s.sent + 1] == s.handed[..s.sent] + [s.handed[s.sent]];
      } else {
        assert OwnItems(s.log) + [] == OwnItems(s.log);
      }
    }
    hide FinishWrite;
    FinishShape(s);
  }

  lemma WholeItem(wire: Bytes, flat: Bytes, done: Bytes, left: Bytes, item: Bytes)
    requires wire == flat + done && done + left == item && left == []
    ensures wire == (flat + item) + []
  {
  }

  lemma FinishShape(s: State)
    requires s.current.Some? && (s.phase.Writing? <==> s.current.value.own)
    requires s.sent < |s.handed| + (if s.phase.Writing? then 0 else 1)
    requires !s.current.value.own ==> s.current.value.item.Beat?
    requires forall i :: 0 <= i < |s.log| && !s.log[i].own ==> s.log[i].item.Beat?
    ensures var t := FinishWrite(s);
            && t.phase.Waiting? && t.current.None? && t.done == [] && t.left == [] && t.sent <= |t.handed|
            && forall i :: 0 <= i < |t.log| && !t.log[i].own ==> t.log[i].item.Beat?
  {
  }

  lemma WriteDoneInv(s: State)
    requires Inv(s) && Enabled(s, WriteDone)
    ensures Inv(FinishWrite(s))
  {
    hide Flat, OwnItems, Encoded, WireInv;
    WriteDoneWire(s);
    if s.phase.Writing? {
      NextInLine(s);
    }
  }

  lemma WriteFailInv(s: State)
    requires Inv(s) && Enabled(s, WriteFail)
    ensures Inv(FailWrite(s))
  {
    hide Flat, OwnItems, Encoded;
    if s.phase.Writing? {
      NextInLine(s);
    }
  }

  lemma CancelOne(replies: seq<Reply>, id: nat)
    requires id < |replies|
    ensures CancelAll(replies, [id]) == replies[id := Cancelled]
  {
    assert [id][1..] == [];
  }

  /** What stopping does to the replies: the item without one, if any, is cancelled. */
  lemma StopReplies(s: State)
    requires Inv(s) && !s.phase.Writing?
    ensures Stop(s).replies == if AwaitsReply(s) then s.replies[s.pending.value := Cancelled] else s.replies
  {
    hide WireInv;
    if AwaitsReply(s) {
      CancelOne(s.replies, s.pending.value);
    }
  }

  lemma StopInv(s: State)
    requires Inv(s) && !s.phase.Writing?
    ensures Inv(Stop(s))
  {
    hide Flat, OwnItems, Encoded;
    StopReplies(s);
    hide CancelAll;
    assert WireInv(Stop(s));
    hide WireInv;
    if AwaitsReply(s) {
      assert s.replies[s.pending.value] != Sent(true);
    }
  }

  lemma TaskDroppedInv(s: State)
    requires Inv(s) && Enabled(s, TaskDropped)
    ensures Inv(Teardown(s))
  {
    hide Flat, OwnItems, Encoded;
    if s.phase.Writing? {
      NextInLine(s);
      assert Teardown(s).replies == s.replies[s.phase.id := Cancelled];
      hide CancelAll;
      assert WireInv(Teardown(s));
      hide WireInv;
    } else {
      StopInv(s);
      hide CancelAll;
      assert WireInv(Teardown(s));
      hide WireInv;
    }
  }

  /** Every step, by whichever side, keeps the invariant. */
  lemma {:induction false} NextInv(s: State, a: Action)
    requires Inv(s) && Enabled(s, a)
    ensures Inv(Next(s, a))
  {
    hide Inv, Settle, TryReady, TrySend, TryClose, Stop, Teardown, FinishWrite, FailWrite, StartWriting;
    match a
    case PollReady => ReadyInv(s);
    case StartSend(item) => SendInv(s, item);
    case PollFlush => SettleInv(s);
    case PollClose => CloseInv(s);
    case DropTransport => DropInv(s);
    case Take => TakeInv(s);
    case ChannelEnd => ChannelEndInv(s);
    case Timeout => BeatInv(s);
    case WriteSome(n) => WriteSomeInv(s, n);
    case WriteDone => WriteDoneInv(s);
    case WriteFail => WriteFailInv(s);
    case CloseDone => ClosingInv(s);
    case TaskDropped => TaskDroppedInv(s);
  }

  lemma ClosingInv(s: State)
    requires Inv(s) && s.phase.Closing?
    ensures Inv(Stop(s))
  {
    StopInv(s);
  }

  lemma {:induction false} RunInv(s: State, acts: seq<Action>, t: State)
    requires Inv(s) && Run(s, acts, t)
    ensures Inv(t)
    decreases |acts|
  {
    hide Inv, Next;
    if acts != [] {
      NextInv(s, acts[0]);
      RunInv(Next(s, acts[0]), acts[1..], t);
    }
  }
}
