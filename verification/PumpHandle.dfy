/**
 * The pump's two ends as the objects they are: the caller's `Pump` and the pump task's `Worker` share a channel
 * and the oneshots that travel through it. What they do to these objects refines the protocol's steps.
 */
module PumpHandle {
  import opened Octets
  import opened PumpProtocol

  class Oneshot {
    var reply: Reply

    constructor ()
      ensures reply == Unsent
    {
      reply := Unsent;
    }
  }

  /** A queued item with the oneshot that reports its result (`PendingWrite`). */
  datatype Slot = Slot(item: Outgoing, ack: Oneshot)

  class Channel {
    var queue: seq<Slot>
    var closed: bool         // by the sending side
    var receiverGone: bool

    constructor ()
      ensures queue == [] && !closed && !receiverGone
    {
      queue, closed, receiverGone := [], false, false;
    }
  }

  /** What the pump task is doing, without the protocol's item numbers. */
  datatype Mode = Idle | WritingItem | WritingBeat | ShuttingDown | Gone

  function ModeOf(p: Phase): Mode
  {
    match p
    case Waiting => Idle
    case Writing(_) => WritingItem
    case Beating => WritingBeat
    case Closing => ShuttingDown
    case Stopped => Gone
  }

  ghost predicate Distinct(acks: seq<Oneshot>)
  {
    forall i, j :: 0 <= i < j < |acks| ==> acks[i] != acks[j]
  }

  /** The oneshots, by item number, hold the protocol's replies. */
  ghost predicate Holds(acks: seq<Oneshot>, replies: seq<Reply>)
    reads acks
  {
    |acks| == |replies| && Distinct(acks) && forall i :: 0 <= i < |acks| ==> acks[i].reply == replies[i]
  }

  ghost predicate QueueIs(queue: seq<Slot>, acks: seq<Oneshot>, ids: seq<nat>, handed: seq<Outgoing>)
    requires |acks| == |handed|
  {
    && |queue| == |ids|
    && forall i :: 0 <= i < |ids| ==> ids[i] < |acks| && queue[i] == Slot(handed[ids[i]], acks[ids[i]])
  }

  ghost predicate IsAck(ack: Option<Oneshot>, acks: seq<Oneshot>, id: Option<nat>)
  {
    match id
    case None => ack == None
    case Some(n) => n < |acks| && ack == Some(acks[n])
  }

  function IdOf(p: Phase): Option<nat>
  {
    if p.Writing? then Some(p.id) else None
  }

  /** The objects are in the protocol state `s`, with `acks` the oneshots of all items so far. */
  ghost predicate InState(p: Pump, w: Worker, acks: seq<Oneshot>, s: State)
    reads p, w, p.tx, acks
  {
    && w.rx == p.tx
    && |s.handed| == |acks| && Holds(acks, s.replies)
    && IsAck(p.pending, acks, s.pending)
    && QueueIs(p.tx.queue, acks, s.queue, s.handed)
    && p.tx.closed == s.closed && p.tx.receiverGone == s.phase.Stopped?
    && w.mode == ModeOf(s.phase) && IsAck(w.ack, acks, IdOf(s.phase))
    && w.beats == s.beats && w.left == s.left && w.socket == s.wire
  }

  lemma NotStopped(p: Pump, w: Worker, acks: seq<Oneshot>, s: State)
    requires InState(p, w, acks, s)
    ensures w.mode.Gone? <==> s.phase.Stopped?
  {
  }

  /** Whether some write has failed is history, and not held in the objects. */
  lemma SameObjects(p: Pump, w: Worker, acks: seq<Oneshot>, s: State)
    requires InState(p, w, acks, s)
    ensures InState(p, w, acks, s.(failed := true))
  {
  }

  /** The objects allow the pump task exactly the steps that the protocol does. */
  lemma AbleIff(p: Pump, w: Worker, acks: seq<Oneshot>, s: State, a: Action)
    requires InState(p, w, acks, s) && !ByCaller(a)
    ensures w.Able(a) <==> Enabled(s, a)
  {
  }

  class Pump {
    const tx: Channel
    var pending: Option<Oneshot>

    constructor (tx: Channel)
      ensures this.tx == tx && pending == None
    {
      this.tx := tx;
      pending := None;
    }

    predicate Disconnected()
      reads this, tx
    {
      tx.closed || tx.receiverGone
    }

    method PollFlush(ghost w: Worker, ghost acks: seq<Oneshot>, ghost s: State) returns (p: Poll)
      requires InState(this, w, acks, s)
      modifies this
      ensures p == Settle(s).1 && InState(this, w, acks, Settle(s).0)
    {
      if pending.None? {
        return Ready(true);
      }
      var reply := pending.value.reply;
      if reply.Unsent? {
        return Pending;
      }
      pending := None;
      p := Ready(reply == Sent(true));
    }

    method PollReady(ghost w: Worker, ghost acks: seq<Oneshot>, ghost s: State) returns (p: Poll)
      requires InState(this, w, acks, s)
      modifies this
      ensures p == TryReady(s).1 && InState(this, w, acks, TryReady(s).0)
    {
      hide Settle;
      p := PollFlush(w, acks, s);
      if p == Ready(true) {
        p := if Disconnected() then Ready(false) else if |tx.queue| > 1 then Pending else Ready(true);
      }
    }

    method StartSend(item: Outgoing, ghost w: Worker, ghost acks: seq<Oneshot>, ghost s: State)
      returns (p: Poll, ghost all: seq<Oneshot>)
      requires InState(this, w, acks, s)
      modifies this, tx
      ensures p == TrySend(s, item).1 && InState(this, w, all, TrySend(s, item).0)
      ensures forall a <- all :: a in acks || fresh(a)
    {
      if Disconnected() || |tx.queue| > 1 {
        return Ready(false), acks;
      }
      var ack := new Oneshot();
      tx.queue := tx.queue + [Slot(item, ack)];
      pending := Some(ack);
      return Ready(true), acks + [ack];
    }

    method PollClose(ghost w: Worker, ghost acks: seq<Oneshot>, ghost s: State) returns (p: Poll)
      requires InState(this, w, acks, s)
      modifies this, tx
      ensures p == TryClose(s).1 && InState(this, w, acks, TryClose(s).0)
    {
      hide Settle;
      p := PollFlush(w, acks, s);
      if p == Ready(true) {
        tx.closed := true;
      }
    }
  }

  /** The pump task's end: the receiver, the oneshot of the item being written, and the socket. */
  class Worker {
    const rx: Channel
    const beats: bool
    var mode: Mode
    var ack: Option<Oneshot>
    var left: Bytes
    var socket: Bytes

    constructor (rx: Channel, beats: bool)
      ensures this.rx == rx && this.beats == beats && mode == Idle && ack == None && left == [] && socket == []
    {
      this.rx, this.beats := rx, beats;
      mode, ack, left, socket := Idle, None, [], [];
    }

    /** Whether the pump task can take this step. */
    predicate Able(a: Action)
      reads this, rx
    {
      match a
      case Take => mode.Idle? && rx.queue != []
      case ChannelEnd => mode.Idle? && rx.queue == [] && rx.closed
      case Timeout => mode.Idle? && beats && rx.queue == [] && !rx.closed
      case WriteSome(n) => (mode.WritingItem? || mode.WritingBeat? || mode.ShuttingDown?) && n <= |left|
      case WriteDone => (mode.WritingItem? || mode.WritingBeat?) && left == []
      case WriteFail => mode.WritingItem? || mode.WritingBeat?
      case CloseDone => mode.ShuttingDown?
      case TaskDropped => !mode.Gone?
      case _ => false
    }

    method Receive(ghost p: Pump, ghost acks: seq<Oneshot>, ghost s: State)
      requires InState(p, this, acks, s) && Able(Take)
      modifies this, rx
      ensures Enabled(s, Take) && InState(p, this, acks, Next(s, Take))
    {
      hide Encoded;
      var slot := rx.queue[0];
      rx.queue := rx.queue[1..];
      mode, ack, left := WritingItem, Some(slot.ack), Encoded(slot.item);
    }

    method Beat(ghost p: Pump, ghost acks: seq<Oneshot>, ghost s: State)
      requires InState(p, this, acks, s) && Able(Timeout)
      modifies this
      ensures Enabled(s, Timeout) && InState(p, this, acks, Next(s, Timeout))
    {
      mode, left := WritingBeat, "\n";
    }

    method StartClosing(ghost p: Pump, ghost acks: seq<Oneshot>, ghost s: State)
      requires InState(p, this, acks, s) && Able(ChannelEnd)
      modifies this
      ensures Enabled(s, ChannelEnd) && InState(p, this, acks, Next(s, ChannelEnd))
    {
      mode := ShuttingDown;
    }

    method Write(n: nat, ghost p: Pump, ghost acks: seq<Oneshot>, ghost s: State)
      requires InState(p, this, acks, s) && Able(WriteSome(n))
      modifies this
      ensures Enabled(s, WriteSome(n)) && InState(p, this, acks, Next(s, WriteSome(n)))
    {
      socket, left := socket + left[..n], left[n..];
    }

    /** The end of a write: the oneshot, if the item came with one, gets the result. */
    method Report(ok: bool, ghost p: Pump, ghost acks: seq<Oneshot>, ghost s: State)
      requires InState(p, this, acks, s) && Able(if ok then WriteDone else WriteFail)
      modifies this, acks
      ensures var a := if ok then WriteDone else WriteFail;
              Enabled(s, a) && InState(p, this, acks, Next(s, a))
    {
      if ack.Some? {
        ack.value.reply := Sent(ok);
      }
      ack := None;
      mode, left := if ok then Idle else ShuttingDown, if ok then [] else left;
    }

    /** Dropping the receiver drops the queued items and their oneshots. */
    method DropReceiver(ghost p: Pump, ghost acks: seq<Oneshot>, ghost s: State)
      requires InState(p, this, acks, s) && ack == None && !mode.Gone?
      modifies this, rx, acks
      ensures InState(p, this, acks, Stop(s))
    {
      hide InState, Stop;
      ghost var u := s;
      while rx.queue != []
        invariant InState(p, this, acks, u) && ack == None && !mode.Gone?
        invariant Stop(u) == Stop(s)
        decreases |rx.queue|
      {
        u := DropHead(p, acks, u);
      }
      Leave(p, acks, u);
    }

    /** The item at the head of the channel is dropped, and with it its oneshot. */
    method DropHead(ghost p: Pump, ghost acks: seq<Oneshot>, ghost s: State) returns (ghost t: State)
      requires InState(p, this, acks, s) && ack == None && rx.queue != [] && !mode.Gone?
      modifies rx, acks
      ensures InState(p, this, acks, t) && Stop(t) == Stop(s) && |rx.queue| < |old(rx.queue)|
    {
      t := s.(replies := s.replies[s.queue[0] := Cancelled], queue := s.queue[1..]);
      rx.queue[0].ack.reply := Cancelled;
      rx.queue := rx.queue[1..];
    }

    method Leave(ghost p: Pump, ghost acks: seq<Oneshot>, ghost s: State)
      requires InState(p, this, acks, s) && ack == None && rx.queue == []
      modifies this, rx
      ensures InState(p, this, acks, Stop(s))
    {
      rx.receiverGone := true;
      mode := Gone;
    }

    method Finish(ghost p: Pump, ghost acks: seq<Oneshot>, ghost s: State)
      requires InState(p, this, acks, s) && Able(CloseDone)
      modifies this, rx, acks
      ensures Enabled(s, CloseDone) && InState(p, this, acks, Next(s, CloseDone))
    {
      DropReceiver(p, acks, s);
    }

    /** The pump task is dropped, and with it the oneshot it holds. */
    method Drop(ghost p: Pump, ghost acks: seq<Oneshot>, ghost s: State)
      requires InState(p, this, acks, s) && Able(TaskDropped)
      modifies this, rx, acks
      ensures Enabled(s, TaskDropped) && InState(p, this, acks, Next(s, TaskDropped))
    {
      hide InState, Stop, Teardown;
      NotStopped(p, this, acks, s);
      ghost var u := DropHeld(p, acks, s);
      DropReceiver(p, acks, u);
      SameObjects(p, this, acks, Stop(u));
    }

    method DropHeld(ghost p: Pump, ghost acks: seq<Oneshot>, ghost s: State) returns (ghost t: State)
      requires InState(p, this, acks, s) && !mode.Gone?
      modifies this, acks
      ensures InState(p, this, acks, t) && ack == None && !mode.Gone?
      ensures Teardown(s) == Stop(t).(failed := true)
    {
      t := s;
      if ack.Some? {
        t := s.(replies := Replied(s, s.phase.id, Cancelled), phase := Closing);
        ack.value.reply := Cancelled;
        ack, mode := None, ShuttingDown;
      }
    }

    /** One step of the pump task. */
    method Perform(a: Action, ghost p: Pump, ghost acks: seq<Oneshot>, ghost s: State)
      requires InState(p, this, acks, s) && Able(a)
      modifies this, rx, acks
      ensures Enabled(s, a) && InState(p, this, acks, Next(s, a))
    {
      hide InState, Enabled, Next;
      if a.Take? {
        Receive(p, acks, s);
      } else if a.ChannelEnd? {
        StartClosing(p, acks, s);
      } else if a.Timeout? {
        Beat(p, acks, s);
      } else if a.WriteSome? {
        Write(a.n, p, acks, s);
      } else if a.WriteDone? {
        Report(true, p, acks, s);
      } else if a.WriteFail? {
        Report(false, p, acks, s);
      } else if a.CloseDone? {
        Finish(p, acks, s);
      } else {
        Drop(p, acks, s);
      }
    }
  }
}
