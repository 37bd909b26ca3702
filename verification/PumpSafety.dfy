/** What holds of every run of the write pump. */
module PumpSafety {
  import opened Octets
  import opened PumpProtocol

  ghost predicate Reachable(beats: bool, acts: seq<Action>, t: State)
  {
    Run(Init(beats), acts, t)
  }

  lemma ReachableInv(beats: bool, acts: seq<Action>, t: State)
    requires Reachable(beats, acts, t)
    ensures Inv(t)
  {
    hide Inv;
    InitInv(beats);
    RunInv(Init(beats), acts, t);
  }

  /** Items in the channel, with the pump, or acknowledged but not yet observed. */
  function Outstanding(s: State): nat
  {
    |s.queue|
    + (if s.phase.Writing? then 1 else 0)
    + (if s.pending.Some? && !AwaitsReply(s) then 1 else 0)
  }

  /** Never more than one item is outstanding: exactly one while the caller holds a oneshot, else none. */
  lemma AtMostOneItem(beats: bool, acts: seq<Action>, t: State)
    requires Reachable(beats, acts, t)
    ensures Outstanding(t) == if t.pending.Some? then 1 else 0
  {
    hide Reachable, WireInv;
    ReachableInv(beats, acts, t);
  }

  /** The channel's slots never make the caller wait: once settled, a connected pump takes the next item. */
  lemma NeverParked(beats: bool, acts: seq<Action>, t: State, item: Outgoing)
    requires Reachable(beats, acts, t)
    ensures Settle(t).1 == Ready(true) && !Disconnected(t) ==> Answer(t, PollReady) == Ready(true)
    ensures t.granted && !Disconnected(t) ==> Answer(t, StartSend(item)) == Ready(true)
  {
    hide Reachable, WireInv;
    ReachableInv(beats, acts, t);
  }

  /** Closing succeeds only with nothing in the channel or with the pump, so no item is stranded by it. */
  lemma CloseStrandsNothing(beats: bool, acts: seq<Action>, t: State)
    requires Reachable(beats, acts, t) && t.alive && Answer(t, PollClose) == Ready(true)
    ensures var closed := Next(t, PollClose);
            closed.closed && closed.queue == [] && !closed.phase.Writing? && |closed.results| == |closed.handed|
  {
    hide Reachable, WireInv;
    ReachableInv(beats, acts, t);
  }

  /**
   * A poll that does not succeed does no more than a flush does: the channel stays open, and nothing may be
   * sent on the strength of it. A flush that has to wait changes nothing.
   */
  lemma {:induction false} UnsuccessfulPolls(t: State)
    requires t.alive
    ensures Answer(t, PollFlush) == Pending ==> Next(t, PollFlush) == t
    ensures Answer(t, PollClose) != Ready(true) ==> Next(t, PollClose) == Next(t, PollFlush)
    ensures Answer(t, PollReady) != Ready(true) ==> Next(t, PollReady) == Next(t, PollFlush)
  {
  }

  lemma BeatIsNewline()
    ensures Encoded(Beat) == "\n"
  {
  }

  /**
   * The wire in every run: the acknowledged items whole and in hand-over order, single newlines from
   * the pump only between them, then a prefix of at most one item more.
   */
  lemma WireShape(beats: bool, acts: seq<Action>, t: State)
    requires Reachable(beats, acts, t)
    ensures t.wire == Flat(t.log) + t.done
    ensures t.sent <= |t.handed| && OwnItems(t.log) == t.handed[..t.sent]
    ensures forall i :: 0 <= i < |t.log| && !t.log[i].own ==> Encoded(t.log[i].item) == "\n"
    ensures || t.done == []
            || t.done == "\n"
            || (t.sent < |t.handed| && t.done <= Encoded(t.handed[t.sent]))
  {
    hide Reachable, Encoded, Flat, OwnItems, CallerInv, ChannelInv, ReplyInv;
    ReachableInv(beats, acts, t);
    BeatIsNewline();
  }

  // Phases

  lemma PollsKeepPhase(s: State, item: Outgoing)
    ensures Settle(s).0.phase == s.phase && Settle(s).0.beats == s.beats
    ensures TryReady(s).0.phase == s.phase && TryReady(s).0.beats == s.beats
    ensures TryClose(s).0.phase == s.phase && TryClose(s).0.beats == s.beats
    ensures TrySend(s, item).0.phase == s.phase && TrySend(s, item).0.beats == s.beats
  {
    var t := Settle(s).0;
    assert t.phase == s.phase && t.beats == s.beats;
    hide Settle;
  }

  /** The log grows with each finished write and only then. */
  lemma LogAfter(s: State, a: Action)
    requires Inv(s) && Enabled(s, a)
    ensures |Next(s, a).log| == |s.log| + (if a.WriteDone? then 1 else 0)
  {
    hide Next, Inv, FinishWrite;
    if a.WriteDone? {
      WritingHasEntry(s);
      FinishLog(s);
      NextFinishes(s);
    } else {
      LogStays(s, a);
    }
  }

  lemma WritingHasEntry(s: State)
    requires Inv(s) && (s.phase.Writing? || s.phase.Beating?)
    ensures s.current.Some?
  {
    hide CallerInv, ChannelInv, ReplyInv, Flat, OwnItems, Encoded;
  }

  lemma NextFinishes(s: State)
    requires Enabled(s, WriteDone)
    ensures Next(s, WriteDone) == FinishWrite(s)
  {
    hide FinishWrite;
  }

  lemma LogStays(s: State, a: Action)
    requires Enabled(s, a) && !a.WriteDone?
    ensures Next(s, a).log == s.log
  {
    hide Encoded, Settle, TrySend, TryReady, TryClose, Stop, FinishWrite, FailWrite, Teardown;
    LogAtEnd(s, if a.StartSend? then a.item else Beat);
  }

  lemma FinishLog(s: State)
    requires s.current.Some?
    ensures |FinishWrite(s).log| == |s.log| + 1
  {
    hide Replied;
  }

  lemma LogAtEnd(s: State, item: Outgoing)
    ensures Teardown(s).log == s.log && Stop(s).log == s.log && FailWrite(s).log == s.log
    ensures Settle(s).0.log == TryReady(s).0.log == TryClose(s).0.log == TrySend(s, item).0.log == s.log
  {
    hide CancelAll, Replied, Settle;
    SettleFrame(s);
  }

  lemma WritesKeepBeats(s: State)
    ensures FinishWrite(s).phase.Waiting? && FinishWrite(s).beats == s.beats
    ensures FailWrite(s).phase.Closing? && FailWrite(s).beats == s.beats
  {
    hide Replied;
  }

  lemma StopsKeepBeats(s: State)
    ensures Stop(s).phase.Stopped? && Stop(s).beats == s.beats
    ensures Teardown(s).phase.Stopped? && Teardown(s).beats == s.beats
  {
    hide CancelAll, Replied;
  }

  /** How each step moves the pump between its phases. */
  lemma PhaseAfter(s: State, a: Action)
    requires Enabled(s, a)
    ensures var t := Next(s, a);
            && t.beats == s.beats
            && match a
               case Take => s.phase.Waiting? && t.phase.Writing?
               case Timeout => s.phase.Waiting? && t.phase.Beating?
               case WriteDone => (s.phase.Writing? || s.phase.Beating?) && t.phase.Waiting?
               case ChannelEnd | WriteFail | CloseDone | TaskDropped => !Live(t)
               case _ => t.phase == s.phase
  {
    hide Encoded, Settle, TryReady, TryClose, TrySend, FinishWrite, FailWrite, Stop, Teardown;
    WritesKeepBeats(s);
    StopsKeepBeats(s);
    PollsKeepPhase(s, if a.StartSend? then a.item else Beat);
  }

  // Results

  /** Each result is observed once, in hand-over order, and says what became of that very item. */
  lemma ResultsInOrder(beats: bool, acts: seq<Action>, t: State)
    requires Reachable(beats, acts, t)
    ensures |t.results| == |t.handed| - (if t.pending.Some? then 1 else 0) && |t.replies| == |t.handed|
    ensures forall i :: 0 <= i < |t.results| ==>
              && !t.replies[i].Unsent? && t.results[i] == OutcomeOf(t.replies[i])
              && (t.results[i].Written? <==> i < t.sent)
              && (t.results[i].WriteFailed? <==> t.replies[i] == Sent(false))
              && (t.results[i].ConnectionClosed? <==> t.replies[i] == Cancelled)
  {
    hide Reachable, WireInv;
    ReachableInv(beats, acts, t);
  }

  /** A reply left unread, as by a dropped `send` future, is observed by the next poll for readiness. */
  lemma LateResult(beats: bool, acts: seq<Action>, t: State)
    requires Reachable(beats, acts, t) && t.alive && t.pending.Some? && !AwaitsReply(t)
    ensures var after := Next(t, PollReady);
            && after.pending.None?
            && |t.results| < |t.replies|
            && after.results == t.results + [OutcomeOf(t.replies[|t.results|])]
            && (!OutcomeOf(t.replies[|t.results|]).Written? ==> Answer(t, PollReady) == Ready(false))
  {
    hide Reachable, WireInv;
    ReachableInv(beats, acts, t);
  }

  /** History only grows, and a reply once given is never changed. */
  ghost predicate Grows(s: State, t: State)
  {
    && s.results <= t.results && s.handed <= t.handed && s.wire <= t.wire && s.log <= t.log
    && |s.replies| <= |t.replies|
    && forall i :: 0 <= i < |s.replies| && !s.replies[i].Unsent? ==> t.replies[i] == s.replies[i]
  }

  lemma SettleFrame(s: State)
    ensures Settle(s).0 == s.(pending := Settle(s).0.pending, results := Settle(s).0.results)
    ensures s.results <= Settle(s).0.results
  {
  }

  lemma SettleGrows(s: State)
    ensures Grows(s, Settle(s).0)
    ensures Settle(s).0 == s.(pending := Settle(s).0.pending, results := Settle(s).0.results)
  {
    hide Settle;
    SettleFrame(s);
  }

  lemma PollsGrow(s: State)
    ensures Grows(s, TryReady(s).0) && Grows(s, TryClose(s).0)
  {
    hide Settle;
    SettleGrows(s);
  }

  lemma SendGrows(s: State, item: Outgoing)
    requires |s.replies| == |s.handed|
    ensures Grows(s, TrySend(s, item).0)
  {
  }

  lemma FinishGrows(s: State)
    requires s.phase.Writing? ==> s.phase.id < |s.replies| && s.replies[s.phase.id].Unsent?
    ensures Grows(s, FinishWrite(s))
  {
    hide FinishWrite, Replied;
    FinishFrame(s);
    if s.phase.Writing? {
      RepliedGrows(s, s.phase.id, Sent(true));
    }
  }

  lemma FinishFrame(s: State)
    ensures var t := FinishWrite(s);
            && t.results == s.results && t.handed == s.handed && t.wire == s.wire && s.log <= t.log
            && t.replies == if s.phase.Writing? then Replied(s, s.phase.id, Sent(true)) else s.replies
  {
    hide Replied;
  }

  lemma RepliedGrows(s: State, id: nat, r: Reply)
    requires id < |s.replies| && s.replies[id].Unsent?
    ensures var replies := Replied(s, id, r);
            && |replies| == |s.replies|
            && forall i :: 0 <= i < |replies| && !s.replies[i].Unsent? ==> replies[i] == s.replies[i]
  {
  }

  lemma FailGrows(s: State)
    requires s.phase.Writing? ==> s.phase.id < |s.replies| && s.replies[s.phase.id].Unsent?
    ensures Grows(s, FailWrite(s))
  {
    hide Replied;
    if s.phase.Writing? {
      RepliedGrows(s, s.phase.id, Sent(false));
    }
  }

  lemma StopGrows(s: State)
    requires Inv(s)
    ensures !s.phase.Writing? ==> Grows(s, Stop(s))
    ensures Grows(s, Teardown(s))
  {
    if s.phase.Writing? {
      assert Teardown(s).replies == s.replies[s.phase.id := Cancelled];
    } else {
      StopReplies(s);
    }
    hide CancelAll, WireInv;
  }

  lemma NextGrows(s: State, a: Action)
    requires Inv(s) && Enabled(s, a)
    ensures Grows(s, Next(s, a))
  {
    hide CancelAll, Encoded, Flat, OwnItems, WireInv, ReplyInv, Settle, TryReady, TrySend, TryClose, FinishWrite;
    hide FailWrite, Stop, Teardown;
    SettleGrows(s);
    PollsGrow(s);
    SendGrows(s, if a.StartSend? then a.item else Beat);
    FinishGrows(s);
    FailGrows(s);
    StopGrows(s);
  }

  lemma {:induction false} RunGrows(s: State, acts: seq<Action>, t: State)
    requires Inv(s) && Run(s, acts, t)
    ensures Grows(s, t)
    decreases |acts|
  {
    hide Inv, Next;
    if acts != [] {
      NextInv(s, acts[0]);
      NextGrows(s, acts[0]);
      RunGrows(Next(s, acts[0]), acts[1..], t);
    }
  }

  // Failure

  /** From `s` on nothing new was acknowledged or logged, and only the buffered rest of the last item could go out. */
  ghost predicate Latched(s: State, t: State)
  {
    && t.failed && t.sent == s.sent && t.log == s.log
    && |t.left| <= |s.left| && t.left == s.left[|s.left| - |t.left|..]
    && t.wire == s.wire + s.left[..|s.left| - |t.left|]
  }

  lemma LatchedTrans(a: State, b: State, c: State)
    requires Latched(a, b) && Latched(b, c)
    ensures Latched(a, c)
  {
    var n, m := |a.left| - |b.left|, |b.left| - |c.left|;
    assert b.left[..m] == a.left[n..][..m] == a.left[n..n + m];
    assert a.left[..n] + a.left[n..n + m] == a.left[..n + m];
    Regroup(a.wire, a.left[..n], a.left[n..n + m]);
    assert b.left[m..] == a.left[n + m..];
  }

  lemma LatchedRefl(s: State)
    requires s.failed
    ensures Latched(s, s)
  {
    assert s.left[..0] == [] && s.left[0..] == s.left && s.wire + [] == s.wire;
  }

  lemma NextLatched(s: State, a: Action)
    requires Inv(s) && s.failed && Enabled(s, a)
    ensures Latched(s, Next(s, a))
  {
    hide CancelAll, Encoded, Flat, OwnItems, WireInv;
    assert !Live(s);
    LatchedRefl(s);
    if a.WriteSome? {
      assert s.left[a.n..] == s.left[|s.left| - |s.left[a.n..]|..];
    }
  }

  /**
   * Failure latches: once any write has failed, a heart-beat included, no further item is written or
   * acknowledged, and no item handed over from then on is ever reported as written.
   */
  lemma {:induction false} FailureLatches(s: State, acts: seq<Action>, t: State)
    requires Inv(s) && s.failed && Run(s, acts, t)
    ensures Latched(s, t)
    ensures forall i :: s.sent <= i < |t.results| ==> !t.results[i].Written?
    decreases |acts|
  {
    hide Next, WireInv, ChannelInv;
    if acts == [] {
      LatchedRefl(s);
    } else {
      var u := Next(s, acts[0]);
      NextInv(s, acts[0]);
      NextLatched(s, acts[0]);
      FailureLatches(u, acts[1..], t);
      LatchedTrans(s, u, t);
    }
  }

  /** When the pump stops, an item still queued is settled as a closed connection and not left waiting. */
  lemma StopSettles(s: State)
    requires Inv(s) && s.phase.Closing?
    ensures Enabled(s, CloseDone)
    ensures var t := Next(s, CloseDone);
            && t.phase.Stopped? && t.queue == [] && Settle(t).1 != Pending && |t.replies| == |s.replies|
            && (AwaitsReply(s) ==> OutcomeOf(t.replies[s.pending.value]).ConnectionClosed?)
  {
    hide CancelAll, WireInv, ReplyInv;
    StopReplies(s);
  }

  lemma NextCancels(s: State, a: Action, id: nat)
    requires Inv(s) && s.failed && Enabled(s, a)
    requires id < |s.replies| && (s.replies[id].Unsent? || s.replies[id].Cancelled?)
    ensures var t := Next(s, a);
            t.failed && id < |t.replies| && (t.replies[id].Unsent? || t.replies[id].Cancelled?)
  {
    hide Encoded, Flat, OwnItems, WireInv, CallerInv, Settle;
    assert !Live(s);
    PollsKeepReplies(s);
    StopCancels(s, id);
    hide TryReady, TryClose, Stop, ChannelInv, ReplyInv;
  }

  lemma PollsKeepReplies(s: State)
    ensures Settle(s).0.replies == TryReady(s).0.replies == TryClose(s).0.replies == s.replies
    ensures Settle(s).0.failed == TryReady(s).0.failed == TryClose(s).0.failed == s.failed
  {
    hide Settle;
    SettleGrows(s);
  }

  lemma StopCancels(s: State, id: nat)
    requires Inv(s) && !Live(s)
    requires id < |s.replies| && (s.replies[id].Unsent? || s.replies[id].Cancelled?)
    ensures id < |Stop(s).replies| && (Stop(s).replies[id].Unsent? || Stop(s).replies[id].Cancelled?)
    ensures Teardown(s).replies == Stop(s).replies
  {
    hide CancelAll, WireInv, ReplyInv;
    StopReplies(s);
  }

  lemma {:induction false} RunCancels(s: State, acts: seq<Action>, t: State, id: nat)
    requires Inv(s) && s.failed && Run(s, acts, t)
    requires id < |s.replies| && (s.replies[id].Unsent? || s.replies[id].Cancelled?)
    ensures id < |t.replies| && (t.replies[id].Unsent? || t.replies[id].Cancelled?)
    decreases |acts|
  {
    hide Inv, Next;
    if acts != [] {
      NextInv(s, acts[0]);
      NextCancels(s, acts[0], id);
      RunCancels(Next(s, acts[0]), acts[1..], t, id);
    }
  }

  lemma StoppedReplies(t: State, id: nat)
    requires Inv(t) && t.phase.Stopped? && id < |t.replies|
    ensures !t.replies[id].Unsent?
  {
    hide WireInv, ReplyInv;
  }

  /**
   * An item in flight when a write fails is never left waiting: every run from there to the end of the
   * task, whether it returns or is dropped, cancels its oneshot, which the caller sees as a closed connection.
   */
  lemma {:induction false} QueuedIsCancelled(s: State, acts: seq<Action>, t: State)
    requires Inv(s) && s.failed && AwaitsReply(s) && Run(s, acts, t) && t.phase.Stopped?
    ensures |t.replies| > s.pending.value && t.replies[s.pending.value].Cancelled?
    ensures OutcomeOf(t.replies[s.pending.value]).ConnectionClosed?
  {
    hide Inv, Run, Next;
    RunInv(s, acts, t);
    RunCancels(s, acts, t, s.pending.value);
    StoppedReplies(t, s.pending.value);
  }

  /** After that every poll answers at once, and no further item is ever accepted. */
  lemma StoppedRefuses(s: State, item: Outgoing)
    requires Inv(s) && s.phase.Stopped?
    ensures !AwaitsReply(s) && Settle(s).1 != Pending
    ensures Answer(s, PollReady) == Ready(false)
    ensures Answer(s, StartSend(item)) == Ready(false)
  {
    hide WireInv;
  }

  lemma NextStopped(s: State, a: Action)
    requires s.phase.Stopped? && Enabled(s, a)
    ensures Next(s, a).phase.Stopped? && Next(s, a).handed == s.handed
  {
    hide Encoded, Settle, Stop, FinishWrite, FailWrite, StartWriting, OutcomeOf, Grows;
    SettleGrows(s);
  }

  lemma {:induction false} StoppedForever(s: State, acts: seq<Action>, t: State)
    requires Inv(s) && s.phase.Stopped? && Run(s, acts, t)
    ensures t.phase.Stopped? && t.handed == s.handed
    decreases |acts|
  {
    hide Next, Inv;
    if acts != [] {
      NextInv(s, acts[0]);
      NextStopped(s, acts[0]);
      StoppedForever(Next(s, acts[0]), acts[1..], t);
    }
  }

  // How runs end

  /** A pump that ends without a failure has written everything. */
  ghost predicate EndInv(s: State)
  {
    (s.phase.Closing? || s.phase.Stopped?) && !s.failed ==> s.closed && s.queue == [] && s.sent == |s.handed|
  }

  /** With nothing in the channel and nothing being written, every item has been acknowledged. */
  lemma IdleIsSent(s: State)
    requires Inv(s) && s.phase.Waiting? && s.queue == []
    ensures s.sent == |s.handed|
  {
    hide WireInv;
    if s.sent < |s.handed| {
      NextIsUnsent(s);
    }
  }

  lemma NextIsUnsent(s: State)
    requires ReplyInv(s) && Live(s) && s.sent < |s.handed|
    ensures s.replies[s.sent].Unsent?
  {
  }

  lemma ClosingEnds(s: State, a: Action)
    requires Inv(s) && EndInv(s) && Enabled(s, a) && (s.phase.Closing? || s.phase.Stopped?)
    ensures EndInv(Next(s, a))
  {
    hide WireInv, CallerInv, ChannelInv, ReplyInv, Settle, CancelAll, Encoded;
    SettleFrame(s);
  }

  lemma LiveEnds(s: State, a: Action)
    requires Inv(s) && Enabled(s, a) && Live(s)
    ensures EndInv(Next(s, a))
  {
    hide Inv, Settle, TryReady, TryClose, TrySend, FinishWrite, CancelAll, Encoded, Replied;
    PhaseAfter(s, a);
    if a.ChannelEnd? {
      IdleIsSent(s);
    }
  }

  lemma {:induction false} RunEnds(s: State, acts: seq<Action>, t: State)
    requires Inv(s) && EndInv(s) && Run(s, acts, t)
    ensures EndInv(t)
    decreases |acts|
  {
    hide Inv, EndInv, Next;
    if acts != [] {
      NextInv(s, acts[0]);
      if Live(s) {
        LiveEnds(s, acts[0]);
      } else {
        ClosingEnds(s, acts[0]);
      }
      RunEnds(Next(s, acts[0]), acts[1..], t);
    }
  }

  /**
   * A clean end: in every run, a pump that has come to its end without a failure was closed or dropped by the
   * caller, has left nothing in the channel, and has written every item, one queued at that moment included.
   */
  lemma {:induction false} CleanEnd(beats: bool, acts: seq<Action>, t: State)
    requires Reachable(beats, acts, t) && (t.phase.Closing? || t.phase.Stopped?) && !t.failed
    ensures t.closed && t.queue == [] && t.sent == |t.handed| && OwnItems(t.log) == t.handed
  {
    hide Inv, Next;
    InitInv(beats);
    RunEnds(Init(beats), acts, t);
    ReachableInv(beats, acts, t);
    AllSentLogged(t);
  }

  lemma AllSentLogged(t: State)
    requires Inv(t) && t.sent == |t.handed|
    ensures OwnItems(t.log) == t.handed
  {
    hide CallerInv, ChannelInv, ReplyInv, Flat, OwnItems, Encoded;
    assert t.handed[..t.sent] == t.handed;
  }

  /** Steps of the pump task in which nothing goes wrong. */
  predicate Smooth(a: Action)
  {
    a.Take? || a.ChannelEnd? || a.WriteSome? || a.WriteDone? || a.CloseDone?
  }

  ghost predicate SmoothRun(s: State, acts: seq<Action>, t: State)
  {
    Run(s, acts, t) && Inv(t) && t.handed == s.handed && t.closed == s.closed && t.failed == s.failed
    && forall i :: 0 <= i < |acts| ==> Smooth(acts[i])
  }

  lemma SmoothStart(s: State)
    requires Inv(s)
    ensures SmoothRun(s, [], s)
  {
    hide Inv;
  }

  lemma SmoothKeeps(s: State, a: Action)
    requires Enabled(s, a) && Smooth(a)
    ensures Next(s, a).handed == s.handed && Next(s, a).closed == s.closed && Next(s, a).failed == s.failed
  {
    hide Encoded, FinishWrite, Stop;
    EndingsKeep(s);
  }

  lemma EndingsKeep(s: State)
    ensures FinishWrite(s).handed == s.handed && FinishWrite(s).closed == s.closed && FinishWrite(s).failed == s.failed
    ensures Stop(s).handed == s.handed && Stop(s).closed == s.closed && Stop(s).failed == s.failed
  {
    hide CancelAll, Replied;
  }

  lemma SmoothSnoc(s: State, acts: seq<Action>, t: State, a: Action)
    requires SmoothRun(s, acts, t) && Enabled(t, a) && Smooth(a)
    ensures SmoothRun(s, acts + [a], Next(t, a))
  {
    hide Inv, Enabled, Next, Run;
    RunSnoc(s, acts, t, a);
    NextInv(t, a);
    SmoothKeeps(t, a);
  }

  /** Whatever is being written can be finished. */
  lemma {:induction false} FinishCurrent(s: State, acts: seq<Action>, t: State)
    returns (more: seq<Action>, u: State)
    requires SmoothRun(s, acts, t) && (t.phase.Writing? || t.phase.Beating?)
    ensures SmoothRun(s, more, u) && u.phase.Waiting? && u.queue == t.queue
  {
    hide Inv, SmoothRun;
    var all := WriteSome(|t.left|);
    AllWritten(t);
    SmoothSnoc(s, acts, t, all);
    var v := Next(t, all);
    SmoothSnoc(s, acts + [all], v, WriteDone);
    more, u := acts + [all] + [WriteDone], Next(v, WriteDone);
  }

  lemma AllWritten(t: State)
    requires t.phase.Writing? || t.phase.Beating?
    ensures Enabled(t, WriteSome(|t.left|))
    ensures var v := Next(t, WriteSome(|t.left|));
            && v.phase == t.phase && v.queue == t.queue && Enabled(v, WriteDone)
            && Next(v, WriteDone).phase.Waiting? && Next(v, WriteDone).queue == t.queue
  {
    hide Replied;
  }

  /** The item in the channel, if any, can be written. */
  lemma {:induction false} EmptyChannel(s: State, acts: seq<Action>, t: State) returns (more: seq<Action>, u: State)
    requires SmoothRun(s, acts, t) && Live(t)
    ensures SmoothRun(s, more, u) && u.phase.Waiting? && u.queue == []
  {
    hide SmoothRun;
    more, u := acts, t;
    if !t.phase.Waiting? {
      more, u := FinishCurrent(s, acts, t);
    }
    SmoothInv(s, more, u);
    if u.queue != [] {
      CanTake(u);
      hide Inv, Next, Enabled;
      SmoothSnoc(s, more, u, Take);
      more, u := FinishCurrent(s, more + [Take], Next(u, Take));
    }
  }

  lemma SmoothInv(s: State, acts: seq<Action>, t: State)
    requires SmoothRun(s, acts, t)
    ensures Inv(t) && t.handed == s.handed && t.closed == s.closed && t.failed == s.failed
  {
    hide Inv;
  }

  lemma CanTake(s: State)
    requires Inv(s) && s.phase.Waiting? && s.queue != []
    ensures Enabled(s, Take) && Next(s, Take).phase.Writing? && Next(s, Take).queue == []
  {
    hide WireInv, Encoded;
  }

  /**
   * Nothing is ever stuck: from every state of a live pump, whatever the caller has done, steps of the pump task
   * in which nothing goes wrong lead to where every item has been written, and if the caller is gone to the end.
   */
  lemma {:induction false} Drains(beats: bool, acts: seq<Action>, t: State) returns (steps: seq<Action>, u: State)
    requires Reachable(beats, acts, t) && Live(t)
    ensures SmoothRun(t, steps, u) && u.sent == |t.handed| && !u.failed
    ensures u.phase == if t.closed then Stopped else Waiting
  {
    hide SmoothRun, Reachable;
    ReachableInv(beats, acts, t);
    LiveNotFailed(t);
    hide Inv;
    SmoothStart(t);
    steps, u := EmptyChannel(t, [], t);
    SmoothInv(t, steps, u);
    IdleIsSent(u);
    if t.closed {
      CanEnd(u);
      SmoothSnoc(t, steps, u, ChannelEnd);
      SmoothSnoc(t, steps + [ChannelEnd], Next(u, ChannelEnd), CloseDone);
      steps, u := steps + [ChannelEnd] + [CloseDone], Next(Next(u, ChannelEnd), CloseDone);
      SmoothInv(t, steps, u);
    }
  }

  /** When the transport is dropped, steps of the pump task lead to its end, with everything written. */
  lemma {:induction false} Abandoned(beats: bool, acts: seq<Action>, t: State) returns (steps: seq<Action>, u: State)
    requires Reachable(beats, acts, t) && Live(t) && t.alive
    ensures SmoothRun(Next(t, DropTransport), steps, u)
    ensures u.phase.Stopped? && !u.failed && u.sent == |t.handed|
  {
    var dropped := Next(t, DropTransport);
    hide SmoothRun, Next, Inv;
    RunSnoc(Init(beats), acts, t, DropTransport);
    steps, u := Drains(beats, acts + [DropTransport], dropped);
  }

  lemma LiveNotFailed(s: State)
    requires Inv(s) && Live(s)
    ensures !s.failed
  {
    hide WireInv, CallerInv, ChannelInv;
  }

  lemma CanEnd(s: State)
    requires s.phase.Waiting? && s.queue == [] && s.closed
    ensures Enabled(s, ChannelEnd) && Enabled(Next(s, ChannelEnd), CloseDone)
    ensures var t := Next(Next(s, ChannelEnd), CloseDone); t.phase.Stopped? && t.sent == s.sent
  {
    hide CancelAll;
  }

  // Beats and failures

  ghost predicate Silent(s: State)
  {
    && !s.beats && !s.phase.Beating?
    && (s.current.Some? ==> s.current.value.own) && forall i :: 0 <= i < |s.log| ==> s.log[i].own
  }

  lemma PollsStaySilent(s: State, item: Outgoing)
    requires Silent(s)
    ensures Silent(Settle(s).0) && Silent(TryReady(s).0) && Silent(TryClose(s).0) && Silent(TrySend(s, item).0)
  {
    hide Settle;
    SettleFrame(s);
  }

  lemma EndingsStaySilent(s: State)
    requires Silent(s)
    ensures Silent(FinishWrite(s)) && Silent(FailWrite(s)) && Silent(Stop(s)) && Silent(Teardown(s))
  {
    hide Silent, FinishWrite, FailWrite, Stop, Teardown;
    FinishStaysSilent(s);
    FailStaysSilent(s);
    StopStaysSilent(s);
  }

  lemma FinishStaysSilent(s: State)
    requires Silent(s)
    ensures Silent(FinishWrite(s))
  {
    hide Replied;
  }

  lemma FailStaysSilent(s: State)
    requires Silent(s)
    ensures Silent(FailWrite(s))
  {
    hide Replied;
  }

  lemma StopStaysSilent(s: State)
    requires Silent(s)
    ensures Silent(Stop(s)) && Silent(Teardown(s))
  {
    hide CancelAll, Replied;
  }

  lemma NextSilent(s: State, a: Action)
    requires Silent(s) && Enabled(s, a)
    ensures Silent(Next(s, a))
  {
    hide Encoded, Settle, TryReady, TryClose, TrySend, FinishWrite, FailWrite, Stop, Teardown;
    PollsStaySilent(s, if a.StartSend? then a.item else Beat);
    EndingsStaySilent(s);
  }

  lemma {:induction false} RunSilent(s: State, acts: seq<Action>, t: State)
    requires Silent(s) && Run(s, acts, t)
    ensures Silent(t)
    decreases |acts|
  {
    hide Next, Silent;
    if acts != [] {
      NextSilent(s, acts[0]);
      RunSilent(Next(s, acts[0]), acts[1..], t);
    }
  }

  /** Without a negotiated interval the pump puts nothing of its own on the wire. */
  lemma {:induction false} NoBeatsUnasked(acts: seq<Action>, t: State)
    requires Reachable(false, acts, t)
    ensures !t.phase.Beating? && forall i :: 0 <= i < |t.log| ==> t.log[i].own
  {
    hide Next;
    RunSilent(Init(false), acts, t);
  }

  lemma ReplyIsReported(s: State, t: State, r: Reply)
    requires Inv(s) && AwaitsReply(s) && !r.Unsent?
    requires t.pending == s.pending && t.results == s.results && t.replies == s.replies[s.pending.value := r]
    ensures Settle(t).0.results == s.results + [OutcomeOf(r)]
  {
    hide WireInv, CallerInv, ChannelInv, ReplyInv;
  }

  lemma WrittenReplies(s: State)
    requires Inv(s) && s.phase.Writing?
    ensures AwaitsReply(s) && s.phase.id == s.pending.value
    ensures FinishWrite(s).replies == s.replies[s.pending.value := Sent(true)]
    ensures FailWrite(s).replies == s.replies[s.pending.value := Sent(false)]
  {
    hide WireInv, ReplyInv;
  }

  /**
   * What becomes of an item is reported as it is: a finished write as written, a failed one as failed, and the
   * loss of the pump task as a closed connection.
   */
  lemma {:induction false} OutcomeIsReported(s: State)
    requires Inv(s) && AwaitsReply(s)
    ensures Enabled(s, WriteDone) && s.phase.Writing? ==>
              Settle(Next(s, WriteDone)).0.results == s.results + [Written]
    ensures Enabled(s, WriteFail) && s.phase.Writing? ==>
              Settle(Next(s, WriteFail)).0.results == s.results + [WriteFailed]
    ensures Enabled(s, TaskDropped) ==>
              Settle(Next(s, TaskDropped)).0.results == s.results + [ConnectionClosed]
  {
    hide Inv, Settle, FinishWrite, FailWrite, Teardown;
    EndingsKeepCaller(s);
    if s.phase.Writing? {
      WrittenReplies(s);
      ReplyIsReported(s, FinishWrite(s), Sent(true));
      ReplyIsReported(s, FailWrite(s), Sent(false));
    }
    if !s.phase.Stopped? {
      DroppedReplies(s);
      ReplyIsReported(s, Teardown(s), Cancelled);
    }
  }

  lemma EndingsKeepCaller(s: State)
    ensures FinishWrite(s).pending == s.pending && FinishWrite(s).results == s.results
    ensures FailWrite(s).pending == s.pending && FailWrite(s).results == s.results
    ensures Teardown(s).pending == s.pending && Teardown(s).results == s.results
  {
    hide FinishWrite, FailWrite, Teardown;
    FinishKeepsCaller(s);
    FailKeepsCaller(s);
    TeardownKeepsCaller(s);
  }

  lemma FinishKeepsCaller(s: State)
    ensures FinishWrite(s).pending == s.pending && FinishWrite(s).results == s.results
  {
    FinishFrame(s);
    FinishPending(s);
    hide FinishWrite;
  }

  lemma FinishPending(s: State)
    ensures FinishWrite(s).pending == s.pending
  {
    hide Replied;
  }

  lemma FailKeepsCaller(s: State)
    ensures FailWrite(s).pending == s.pending && FailWrite(s).results == s.results
  {
    hide Replied;
  }

  lemma TeardownKeepsCaller(s: State)
    ensures Teardown(s).pending == s.pending && Teardown(s).results == s.results
  {
    hide CancelAll, Replied;
  }

  lemma DroppedReplies(s: State)
    requires Inv(s) && AwaitsReply(s) && !s.phase.Stopped?
    ensures Teardown(s).replies == s.replies[s.pending.value := Cancelled]
  {
    hide WireInv;
    if s.phase.Writing? {
      assert Teardown(s).replies == s.replies[s.phase.id := Cancelled];
    } else {
      StopReplies(s);
    }
  }
}
