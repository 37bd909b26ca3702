/**
 * A pumped connection: the caller's asynchronous `send` and `close` over the shared objects. Between two
 * polls of the caller the pump task takes any number of steps, which a script provides.
 */
module PumpSession {
  import opened Octets
  import opened PumpProtocol
  import opened PumpSafety
  import opened PumpHandle

  /** What the caller cannot see is not changed by the pump task. */
  ghost predicate SameCaller(s: State, t: State)
  {
    && t.alive == s.alive && t.granted == s.granted && t.pending == s.pending && t.results == s.results
    && t.closed == s.closed && t.handed == s.handed && s.sent <= t.sent
  }

  lemma StepKeepsCaller(s: State, a: Action)
    requires Enabled(s, a) && !ByCaller(a)
    ensures SameCaller(s, Next(s, a))
  {
    hide Encoded, FinishWrite, FailWrite, Stop, Teardown;
    WritesKeepCaller(s);
    StopsKeepCaller(s);
  }

  lemma WritesKeepCaller(s: State)
    ensures SameCaller(s, FinishWrite(s)) && SameCaller(s, FailWrite(s))
  {
    hide Replied;
  }

  lemma StopsKeepCaller(s: State)
    ensures SameCaller(s, Stop(s)) && SameCaller(s, Teardown(s))
  {
    hide CancelAll, Replied;
  }

  /** A successful flush of an item in flight says that it, and so every item, has been written. */
  lemma FlushedIsSent(s: State)
    requires Inv(s) && s.pending.Some?
    ensures Settle(s).1 == Ready(true) <==> s.sent == |s.handed|
    ensures Settle(s).0.sent == s.sent && Settle(s).0.handed == s.handed
  {
    hide WireInv, ChannelInv;
    assert s.pending.value == |s.handed| - 1;
  }

  lemma PollsKeepItems(s: State)
    ensures TryReady(s).0.handed == s.handed && TryReady(s).0.sent == s.sent && TryReady(s).0.alive == s.alive
    ensures TryClose(s).0.handed == s.handed && TryClose(s).0.sent == s.sent && TryClose(s).0.alive == s.alive
    ensures Settle(s).0.alive == s.alive
  {
    hide Settle;
    SettleGrows(s);
  }

  class Session {
    const pump: Pump
    const worker: Worker
    var script: seq<seq<Action>>
    ghost const start: State
    ghost var acts: seq<Action>
    ghost var acks: seq<Oneshot>
    ghost var state: State

    constructor (beats: bool, script: seq<seq<Action>>)
      ensures Valid() && state == start == Init(beats) && this.script == script
    {
      var channel := new Channel();
      pump := new Pump(channel);
      worker := new Worker(channel, beats);
      this.script := script;
      start, state := Init(beats), Init(beats);
      acts, acks := [], [];
      InitInv(beats);
    }

    /** The objects are in the state that a run of the protocol has led to. */
    ghost predicate Valid()
      reads this, pump, worker, pump.tx, acks
    {
      InState(pump, worker, acks, state) && Run(start, acts, state) && Inv(state) && state.alive
    }

    /** Takes note of a step that has just been carried out on the objects. */
    ghost method Record(a: Action, all: seq<Oneshot>)
      requires Run(start, acts, state) && Inv(state) && state.alive && a != DropTransport && Enabled(state, a)
      requires InState(pump, worker, all, Next(state, a))
      modifies this
      ensures Valid() && state == Next(old(state), a) && acks == all && script == old(script)
    {
      hide InState, Inv, Enabled, Next, Run;
      StaysAlive(state, a);
      NextInv(state, a);
      RunSnoc(start, acts, state, a);
      state := Next(state, a);
      acts := acts + [a];
      acks := all;
    }

    /** The pump task takes its next steps. */
    method Turn()
      requires Valid() && script != []
      modifies this, worker, pump.tx, acks
      ensures Valid() && script == old(script)[1..] && acks == old(acks) && SameCaller(old(state), state)
    {
      hide InState, Inv, Next, Run;
      var steps := script[0];
      script := script[1..];
      for i := 0 to |steps|
        invariant Valid() && script == old(script)[1..] && acks == old(acks) && SameCaller(old(state), state)
      {
        Step(steps[i]);
      }
    }

    method Step(a: Action)
      requires Valid()
      modifies this, worker, pump.tx, acks
      ensures Valid() && script == old(script) && acks == old(acks) && SameCaller(old(state), state)
    {
      hide InState, Inv, Next, Run, Enabled;
      WorkerRx(pump, worker, acks, state);
      if worker.Able(a) {
        worker.Perform(a, pump, acks, state);
        StepKeepsCaller(state, a);
        Record(a, acks);
      }
    }

    method PollFlush() returns (p: Poll)
      requires Valid()
      modifies this, pump
      ensures Valid() && script == old(script) && acks == old(acks)
      ensures (state, p) == Settle(old(state))
    {
      hide InState, Inv, Run, Settle;
      p := pump.PollFlush(worker, acks, state);
      Record(Action.PollFlush, acks);
    }

    method PollReady() returns (p: Poll)
      requires Valid()
      modifies this, pump
      ensures Valid() && script == old(script) && acks == old(acks)
      ensures (state, p) == TryReady(old(state))
    {
      hide InState, Inv, Run, TryReady;
      p := pump.PollReady(worker, acks, state);
      Record(Action.PollReady, acks);
    }

    method StartSend(item: Outgoing) returns (p: Poll)
      requires Valid() && state.granted
      modifies this, pump, pump.tx
      ensures Valid() && script == old(script) && (forall a <- acks :: a in old(acks) || fresh(a))
      ensures (state, p) == TrySend(old(state), item)
    {
      hide InState, Inv, Run, TrySend;
      ghost var all;
      p, all := pump.StartSend(item, worker, acks, state);
      Record(Action.StartSend(item), all);
    }

    method PollClose() returns (p: Poll)
      requires Valid()
      modifies this, pump, pump.tx
      ensures Valid() && script == old(script) && acks == old(acks)
      ensures (state, p) == TryClose(old(state))
    {
      hide InState, Inv, Run, TryClose;
      p := pump.PollClose(worker, acks, state);
      Record(Action.PollClose, acks);
    }

    /** Polls for readiness until there is an answer, or the script ends. */
    method AwaitReady() returns (p: Poll)
      requires Valid()
      modifies this, pump, worker, pump.tx, acks
      ensures Valid() && acks == old(acks) && state.handed == old(state.handed)
      ensures p == Pending ==> script == [] && AwaitsReply(state)
      ensures p == Ready(false) ==> ClosedOrEnding(state)
      ensures p == Ready(true) ==> state.granted
    {
      hide InState, Inv, Run, TryReady;
      p := PollReady();
      PollsKeepItems(old(state));
      GrantedIfReady(old(state));
      while p == Pending && script != []
        invariant Valid() && acks == old(acks) && state.handed == old(state.handed)
        invariant p == Pending ==> AwaitsReply(state)
        invariant p == Ready(false) ==> ClosedOrEnding(state)
        invariant p == Ready(true) ==> state.granted
        decreases |script|
      {
        Turn();
        PollsKeepItems(state);
        GrantedIfReady(state);
        p := PollReady();
      }
    }

    /** Polls for the result of the item in flight until there is one, or the script ends. */
    method AwaitFlush() returns (p: Poll)
      requires Valid() && state.pending.Some?
      modifies this, pump, worker, pump.tx, acks
      ensures Valid() && acks == old(acks) && state.handed == old(state.handed)
      ensures p == Pending ==> script == [] && AwaitsReply(state)
      ensures p == Ready(false) ==> ClosedOrEnding(state)
      ensures p == Ready(true) <==> state.sent == |state.handed|
      ensures p == Ready(true) ==> state.pending == None
    {
      hide InState, Run, Settle, Inv;
      FlushedIsSent(state);
      SettledIfReady(state);
      p := PollFlush();
      while p == Pending && script != []
        invariant Valid() && acks == old(acks) && state.handed == old(state.handed)
        invariant p == Pending ==> state.pending.Some? && AwaitsReply(state)
        invariant p == Ready(false) ==> ClosedOrEnding(state)
        invariant p == Ready(true) <==> state.sent == |state.handed|
        invariant p == Ready(true) ==> state.pending == None
        decreases |script|
      {
        Turn();
        FlushedIsSent(state);
        SettledIfReady(state);
        p := PollFlush();
      }
    }

    /**
     * `send`: it reports success exactly when the item was handed over and has been written and flushed, and
     * fails only on a connection that is closed or coming to its end. Without an answer at the end of the script
     * it is waiting for the reply to an item.
     */
    method Send(item: Outgoing) returns (r: Option<bool>)
      requires Valid()
      modifies this, pump, worker, pump.tx, acks
      ensures Valid() && (forall a <- acks :: a in old(acks) || fresh(a))
      ensures r.None? ==> script == [] && AwaitsReply(state)
      ensures r == Some(false) ==> ClosedOrEnding(state)
      ensures state.handed == old(state.handed) || state.handed == old(state.handed) + [item]
      ensures r == Some(true) <==> state.handed == old(state.handed) + [item] && state.sent == |state.handed|
      ensures r == Some(true) ==> state.pending == None
    {
      hide InState, Inv, Run, TrySend;
      var p := AwaitReady();
      if p != Ready(true) {
        return if p == Pending then None else Some(false);
      }
      SendOutcome(state, item);
      p := StartSend(item);
      if p != Ready(true) {
        return Some(false);
      }
      assert forall i :: 0 <= i < |acks| ==> acks[i] in old(acks) || fresh(acks[i]);
      p := AwaitFlush();
      return if p == Pending then None else Some(p.ok);
    }

    /** `close`: polls until the flush has succeeded and the channel is closed, it has failed, or the script ends. */
    method Close() returns (r: Option<bool>)
      requires Valid()
      modifies this, pump, worker, pump.tx, acks
      ensures Valid() && acks == old(acks) && state.handed == old(state.handed) && old(state.sent) <= state.sent
      ensures r.None? ==> script == [] && AwaitsReply(state)
      ensures r == Some(false) ==> ClosedOrEnding(state)
      ensures r == Some(true) ==> state.closed && state.queue == [] && |state.results| == |state.handed|
      ensures old(state.pending).None? ==> r == Some(true)
    {
      hide InState, Run, TryClose, Inv;
      CloseOutcome(state);
      var p := PollClose();
      while p == Pending && script != []
        invariant Valid() && acks == old(acks) && state.handed == old(state.handed) && old(state.sent) <= state.sent
        invariant p == Pending ==> AwaitsReply(state)
        invariant p == Ready(false) ==> ClosedOrEnding(state)
        invariant p == Ready(true) ==> state.closed && state.queue == [] && |state.results| == |state.handed|
        invariant old(state.pending).None? ==> p == Ready(true)
        decreases |script|
      {
        Turn();
        CloseOutcome(state);
        p := PollClose();
      }
      return if p == Pending then None else Some(p.ok);
    }
  }

  lemma StaysAlive(s: State, a: Action)
    requires s.alive && Enabled(s, a) && a != DropTransport
    ensures Next(s, a).alive
  {
    hide Settle, TryReady, TryClose, FinishWrite, FailWrite, Stop, Teardown, StartWriting;
    PollsKeepItems(s);
    if !ByCaller(a) {
      StepKeepsCaller(s, a);
    }
  }

  lemma WorkerRx(p: Pump, w: Worker, acks: seq<Oneshot>, s: State)
    requires InState(p, w, acks, s)
    ensures w.rx == p.tx
  {
  }

  /** The connection is closed, or the pump task is coming to its end or has come to it. */
  predicate ClosedOrEnding(s: State)
  {
    s.closed || !Live(s)
  }

  lemma FlushVerdict(s: State)
    requires Inv(s)
    ensures Settle(s).1 == Pending ==> AwaitsReply(Settle(s).0)
    ensures Settle(s).1 == Ready(false) ==> ClosedOrEnding(Settle(s).0)
  {
    hide WireInv, ChannelInv;
  }

  lemma GrantedIfReady(s: State)
    requires Inv(s)
    ensures TryReady(s).1 == Ready(true) ==> TryReady(s).0.granted
    ensures TryReady(s).1 == Pending ==> AwaitsReply(TryReady(s).0)
    ensures TryReady(s).1 == Ready(false) ==> ClosedOrEnding(TryReady(s).0)
  {
    hide Settle, WireInv, ReplyInv;
    SettleInv(s);
    FlushVerdict(s);
  }

  lemma SettledIfReady(s: State)
    requires Inv(s)
    ensures Settle(s).1 == Pending ==> AwaitsReply(Settle(s).0)
    ensures Settle(s).1 == Ready(false) ==> ClosedOrEnding(Settle(s).0)
    ensures Settle(s).1 == Ready(true) ==> Settle(s).0.pending == None
    ensures Settle(s).1 == Pending ==> Settle(s).0 == s
  {
    FlushVerdict(s);
    hide WireInv, ChannelInv, ReplyInv;
  }

  lemma SendOutcome(s: State, item: Outgoing)
    requires Inv(s) && s.granted
    ensures var (t, p) := TrySend(s, item);
            if p == Ready(true) then t.handed == s.handed + [item] && t.pending.Some?
            else p == Ready(false) && t.handed == s.handed && ClosedOrEnding(t)
  {
    hide WireInv, ReplyInv;
  }

  lemma CloseOutcome(s: State)
    requires Inv(s)
    ensures var (t, p) := TryClose(s);
            && t.handed == s.handed && t.sent == s.sent
            && (p == Ready(true) ==> t.closed && t.queue == [] && |t.results| == |t.handed|)
            && (p == Pending ==> AwaitsReply(t)) && (p == Ready(false) ==> ClosedOrEnding(t))
            && (s.pending.None? ==> p == Ready(true))
  {
    FlushVerdict(s);
    SettleInv(s);
    SettleGrows(s);
    hide WireInv, ReplyInv;
    assert s.pending.None? ==> Settle(s) == (s, Ready(true));
    hide Settle;
  }

  // What a successful send has put on the wire

  ghost predicate OnWire(s: State, item: Outgoing)
  {
    exists before: Bytes, after: Bytes :: s.wire == before + (Encoded(item) + after)
  }

  lemma {:induction false} OwnIsLogged(log: seq<Entry>) returns (i: nat)
    requires OwnItems(log) != []
    ensures i < |log| && log[i].own && log[i].item == OwnItems(log)[|OwnItems(log)| - 1]
    decreases |log|
  {
    var last := log[|log| - 1];
    if last.own {
      i := |log| - 1;
    } else {
      assert OwnItems(log) == OwnItems(log[..|log| - 1]) + [];
      i := OwnIsLogged(log[..|log| - 1]);
    }
  }

  lemma {:induction false} LoggedIsFlat(log: seq<Entry>, i: nat) returns (before: Bytes, after: Bytes)
    requires i < |log|
    ensures Flat(log) == before + (Encoded(log[i].item) + after)
    decreases |log|
  {
    hide Encoded;
    var first, last := log[..|log| - 1], Encoded(log[|log| - 1].item);
    if i == |log| - 1 {
      before, after := Flat(first), [];
      assert last + [] == last;
    } else {
      before, after := LoggedIsFlat(first, i);
      Regroup(before, Encoded(log[i].item) + after, last);
      Regroup(Encoded(log[i].item), after, last);
      after := after + last;
    }
  }

  /** When all items have been written, the whole of the last one is on the wire. */
  lemma SentIsOnWire(s: State)
    requires Inv(s) && s.handed != [] && s.sent == |s.handed|
    ensures OnWire(s, s.handed[|s.handed| - 1])
  {
    hide Encoded, Flat, OwnItems, CallerInv, ChannelInv, ReplyInv;
    assert s.handed[..s.sent] == s.handed;
    var i := OwnIsLogged(s.log);
    var before, after := LoggedIsFlat(s.log, i);
    Regroup(before, Encoded(s.log[i].item) + after, s.done);
    Regroup(Encoded(s.log[i].item), after, s.done);
  }
}
