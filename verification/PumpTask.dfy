/**
 * The `write_pump` task as a loop. What the rest of the system does while the pump task is suspended comes
 * from a script: polls by the caller take effect whenever the Sink contract allows them, and every other
 * action only where the pump task is awaiting it.
 */
module PumpTask {
  import opened Octets
  import opened PumpProtocol
  import opened PumpSafety

  class Task {
    var link: State
    var script: seq<Action>
    ghost const start: State
    ghost const goal: State
    ghost var acts: seq<Action>

    constructor (beats: bool, script: seq<Action>, ghost goal: State)
      ensures Valid() && start == Init(beats) == link && this.script == script && this.goal == goal
    {
      link := Init(beats);
      this.script := script;
      start := Init(beats);
      this.goal := goal;
      acts := [];
    }

    /** What has happened so far is a run of the protocol. */
    ghost predicate Valid()
      reads this
    {
      Run(start, acts, link)
    }

    /** What is left of the script is a run of the protocol that ends in `goal`, an arbitrary state. */
    ghost predicate OnTrack()
      reads this
    {
      Run(link, script, goal)
    }

    /** The same once action `a`, already taken off the script, has been carried out. */
    ghost predicate OnTrackBy(a: Action)
      reads this
    {
      Enabled(link, a) && Run(Next(link, a), script, goal)
    }

    /** One step of the protocol has been carried out. */
    method Become(next: State, ghost a: Action)
      requires Valid() && Enabled(link, a) && next == Next(link, a)
      modifies this
      ensures Valid() && link == next && script == old(script)
      ensures old(OnTrackBy(a)) ==> OnTrack()
    {
      hide Next, Enabled;
      RunSnoc(start, acts, link, a);
      link := next;
      acts := acts + [a];
    }

    /** The next action of the script; a poll by the caller is carried out on the way. */
    method NextTurn() returns (a: Action)
      requires Valid() && script != []
      modifies this
      ensures Valid() && script == old(script)[1..]
      ensures link.phase == old(link).phase && (!ByCaller(a) ==> link == old(link))
      ensures old(OnTrack()) ==> if ByCaller(a) then OnTrack() else OnTrackBy(a)
    {
      a := script[0];
      script := script[1..];
      if ByCaller(a) && Enabled(link, a) {
        PhaseAfter(link, a);
        Become(Next(link, a), a);
      }
    }

    /** `rx.next()`, under a timeout if an interval was negotiated. */
    method AwaitItem() returns (a: Option<Action>)
      requires Valid() && link.phase.Waiting?
      modifies this
      ensures Valid() && link.phase.Waiting? && |script| <= |old(script)|
      ensures a.None? ==> script == []
      ensures a.Some? ==> (a.value.Take? || a.value.ChannelEnd? || a.value.Timeout? || a.value.TaskDropped?)
      ensures a.Some? ==> Enabled(link, a.value) && |script| < |old(script)|
      ensures old(OnTrack()) ==> if a.Some? then OnTrackBy(a.value) else OnTrack()
    {
      while script != []
        invariant Valid() && link.phase.Waiting? && |script| <= |old(script)|
        invariant old(OnTrack()) ==> OnTrack()
      {
        var next := NextTurn();
        if (next.Take? || next.ChannelEnd? || next.Timeout? || next.TaskDropped?) && Enabled(link, next) {
          return Some(next);
        }
      }
      return None;
    }

    /** The socket takes some of the buffered octets. */
    method TakeSome(n: nat)
      requires Valid() && Enabled(link, WriteSome(n))
      modifies this
      ensures Valid() && link.phase == old(link).phase && script == old(script)
      ensures old(OnTrackBy(WriteSome(n))) ==> OnTrack()
    {
      var piece := link.left[..n];
      Become(link.(wire := link.wire + piece, done := link.done + piece, left := link.left[n..]), WriteSome(n));
    }

    /** `writer.send(..)`: feeds the socket until everything is flushed or a write fails. */
    method AwaitWrite() returns (a: Option<Action>)
      requires Valid() && (link.phase.Writing? || link.phase.Beating?)
      modifies this
      ensures Valid() && link.phase == old(link).phase && |script| <= |old(script)|
      ensures a.None? ==> script == []
      ensures a.Some? ==> (a.value.WriteDone? || a.value.WriteFail? || a.value.TaskDropped?) && Enabled(link, a.value)
      ensures old(OnTrack()) ==> if a.Some? then OnTrackBy(a.value) else OnTrack()
    {
      while script != []
        invariant Valid() && link.phase == old(link).phase && |script| <= |old(script)|
        invariant old(OnTrack()) ==> OnTrack()
      {
        var next := NextTurn();
        if (next.WriteDone? || next.WriteFail? || next.TaskDropped?) && Enabled(link, next) {
          return Some(next);
        }
        if next.WriteSome? && Enabled(link, next) {
          TakeSome(next.n);
        }
      }
      return None;
    }

    /** `close` flushes what is buffered and shuts the socket down. */
    method AwaitClose() returns (a: Option<Action>)
      requires Valid() && link.phase.Closing?
      modifies this
      ensures Valid() && link.phase.Closing?
      ensures a.None? ==> script == []
      ensures a.Some? ==> a.value.CloseDone? || a.value.TaskDropped?
      ensures old(OnTrack()) ==> if a.Some? then OnTrackBy(a.value) else OnTrack()
    {
      while script != []
        invariant Valid() && link.phase.Closing?
        invariant old(OnTrack()) ==> OnTrack()
      {
        var next := NextTurn();
        if next.CloseDone? || next.TaskDropped? {
          return Some(next);
        }
        if next.WriteSome? && Enabled(link, next) {
          TakeSome(next.n);
        }
      }
      return None;
    }

    /** The pump task is dropped where it is suspended. */
    method Drop()
      requires Valid() && !link.phase.Stopped?
      modifies this
      ensures Valid() && link.phase.Stopped? && script == old(script)
      ensures old(OnTrackBy(TaskDropped)) ==> OnTrack()
    {
      Become(Teardown(link), TaskDropped);
    }

    /** Written and flushed: logged, and reported to the caller if the item was the caller's. */
    method Wrote()
      requires Valid() && Enabled(link, WriteDone)
      modifies this
      ensures Valid() && script == old(script) && link.phase.Waiting?
      ensures old(OnTrackBy(WriteDone)) ==> OnTrack()
    {
      var next := link.(phase := Waiting, current := None, done := [], left := [],
                        log := if link.current.Some? then link.log + [link.current.value] else link.log);
      if link.phase.Writing? {
        next := next.(replies := Replied(link, link.phase.id, Sent(true)), sent := link.sent + 1);
      }
      Become(next, WriteDone);
    }

    /** A failed write: reported likewise, and the pump task goes on to close. */
    method Broke()
      requires Valid() && Enabled(link, WriteFail)
      modifies this
      ensures Valid() && script == old(script) && link.phase.Closing?
      ensures old(OnTrackBy(WriteFail)) ==> OnTrack()
    {
      var next := link.(phase := Closing, failed := true);
      if link.phase.Writing? {
        next := next.(replies := Replied(link, link.phase.id, Sent(false)));
      }
      Become(next, WriteFail);
    }

    /** Waits for the write that has been started, and settles it. */
    method FinishWriting()
      requires Valid() && (link.phase.Writing? || link.phase.Beating?)
      modifies this
      ensures Valid() && |script| <= |old(script)|
      ensures link.phase.Waiting? || link.phase.Closing? || link.phase.Stopped? || script == []
      ensures old(OnTrack()) ==> OnTrack()
    {
      hide Enabled, Next, Run;
      var a := AwaitWrite();
      if a == Some(WriteDone) {
        Wrote();
      } else if a == Some(WriteFail) {
        Broke();
      } else if a.Some? {
        Drop();
      }
    }

    /** Shuts the socket down; queued items are cancelled when the pump task ends. */
    method CloseSocket()
      requires Valid() && link.phase.Closing?
      modifies this
      ensures Valid() && (link.phase.Stopped? || script == [])
      ensures old(OnTrack()) ==> OnTrack()
    {
      var a := AwaitClose();
      if a == Some(CloseDone) {
        Become(Stop(link), CloseDone);
      } else if a.Some? {
        Drop();
      }
    }

    /** Begins to write the item at the head of the channel. */
    method StartItem()
      requires Valid() && Enabled(link, Take)
      modifies this
      ensures Valid() && link.phase.Writing? && script == old(script)
      ensures old(OnTrackBy(Take)) ==> OnTrack()
    {
      hide Encoded;
      var id := link.queue[0];
      var e := Entry(true, link.handed[id]);
      var next := link.(phase := Writing(id), current := Some(e), done := [], left := Encoded(e.item));
      Become(next.(queue := link.queue[1..]), Take);
    }

    /** Begins to write a heart-beat of the pump's own. */
    method StartBeat()
      requires Valid() && Enabled(link, Timeout)
      modifies this
      ensures Valid() && link.phase.Beating? && script == old(script)
      ensures old(OnTrackBy(Timeout)) ==> OnTrack()
    {
      var e := Entry(false, Beat);
      Become(link.(phase := Beating, current := Some(e), done := [], left := "\n"), Timeout);
    }

    /** The sending side is gone and the channel is empty. */
    method StartClosing()
      requires Valid() && Enabled(link, ChannelEnd)
      modifies this
      ensures Valid() && link.phase.Closing? && script == old(script)
      ensures old(OnTrackBy(ChannelEnd)) ==> OnTrack()
    {
      Become(link.(phase := Closing), ChannelEnd);
    }

    /**
     * The pump task itself. Every execution is a run of the protocol, and conversely a script that is a run
     * of the protocol is carried out as it stands, to the end of the script or of the pump task.
     */
    method WritePump()
      requires Valid() && link.phase.Waiting?
      modifies this
      ensures Valid() && (link.phase.Stopped? || script == [])
      ensures old(OnTrack()) ==> OnTrack()
    {
      hide Enabled, Next, Run;
      while link.phase.Waiting?
        invariant Valid() && (link.phase.Waiting? || link.phase.Closing? || link.phase.Stopped? || script == [])
        invariant old(OnTrack()) ==> OnTrack()
        decreases |script|, link.phase.Waiting?
      {
        var a := AwaitItem();
        if a.None? {
          return;
        }
        if a.value == Timeout {
          StartBeat();
          FinishWriting();
        } else if a.value == Take {
          StartItem();
          FinishWriting();
        } else if a.value == ChannelEnd {
          StartClosing();
        } else {
          Drop();
        }
      }
      if link.phase.Closing? {
        CloseSocket();
      }
    }
  }
}
