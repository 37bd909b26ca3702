/** The write pump against a clock, in milliseconds: when it transmits, and when a peer hears of it. */
module TimedPump {
  import opened PumpProtocol
  import opened PumpSafety

  /** Timers fire on time after `period`; a write completes or fails within `limit`. */
  datatype Clocks = Clocks(period: nat, limit: nat)

  datatype Timed = Timed(
    pump: State,
    now: nat,
    since: nat,                // when the pump began to wait, or to write
    sends: seq<nat>,           // when transmissions completed, starting with the handshake
    silences: seq<(nat, nat)>  // for each automatic heart-beat: when the silence began, when the beat started
  )

  datatype Event = Elapse(ms: nat) | Do(action: Action)

  function Start(at: nat): Timed
  {
    Timed(Init(true), at, at, [at], [])
  }

  function Last(times: seq<nat>): nat
    requires times != []
  {
    times[|times| - 1]
  }

  /** Time does not run past an armed timer or the write limit. */
  predicate MayElapse(c: Clocks, t: Timed, ms: nat)
  {
    match t.pump.phase
    case Waiting => t.now + ms <= t.since + c.period
    case Writing(_) => t.now + ms <= t.since + c.limit
    case Beating => t.now + ms <= t.since + c.limit
    case _ => true
  }

  predicate May(c: Clocks, t: Timed, e: Event)
  {
    match e
    case Elapse(ms) => MayElapse(c, t, ms)
    case Do(a) => Enabled(t.pump, a) && (a.Timeout? ==> t.now == t.since + c.period)
  }

  function Step(c: Clocks, t: Timed, e: Event): Timed
    requires May(c, t, e) && t.sends != []
  {
    match e
    case Elapse(ms) => t.(now := t.now + ms)
    case Do(a) =>
      var u := t.(pump := Next(t.pump, a));
      match a
      case Take => u.(since := t.now)
      case Timeout => u.(since := t.now, silences := t.silences + [(Last(t.sends), t.now)])
      case WriteDone => u.(since := t.now, sends := t.sends + [t.now])
      case _ => u
  }

  ghost predicate TimedRun(c: Clocks, t: Timed, es: seq<Event>, u: Timed)
    decreases |es|
  {
    if es == [] then u == t
    else t.sends != [] && May(c, t, es[0]) && TimedRun(c, Step(c, t, es[0]), es[1..], u)
  }

  /** Forgetting the clock leaves a run of the pump, so everything proved of those holds here. */
  lemma {:induction false} TimedRunIsRun(c: Clocks, t: Timed, es: seq<Event>, u: Timed)
    requires TimedRun(c, t, es, u)
    ensures exists acts :: Run(t.pump, acts, u.pump)
    decreases |es|
  {
    hide Next, Enabled;
    if es == [] {
      assert Run(t.pump, [], u.pump);
    } else {
      TimedRunIsRun(c, Step(c, t, es[0]), es[1..], u);
      var acts :| Run(Step(c, t, es[0]).pump, acts, u.pump);
      if es[0].Do? {
        var all := [es[0].action] + acts;
        assert all[1..] == acts;
        assert Run(t.pump, all, u.pump);
      }
    }
  }

  // Timing

  ghost predicate GapsWithin(times: seq<nat>, bound: nat)
  {
    forall i :: 0 < i < |times| ==> times[i - 1] <= times[i] <= times[i - 1] + bound
  }

  ghost predicate TimeInv(c: Clocks, t: Timed)
  {
    && t.pump.beats && t.sends != []
    && GapsWithin(t.sends, c.period + c.limit)
    && (forall i :: 0 <= i < |t.silences| ==> t.silences[i].1 == t.silences[i].0 + c.period)
    && Last(t.sends) <= t.since <= t.now
    && match t.pump.phase
       case Waiting => t.since == Last(t.sends) && t.now <= t.since + c.period
       case Writing(_) => t.since <= Last(t.sends) + c.period && t.now <= t.since + c.limit
       case Beating => t.since <= Last(t.sends) + c.period && t.now <= t.since + c.limit
       case _ => true
  }

  lemma StepTime(c: Clocks, t: Timed, e: Event)
    requires TimeInv(c, t) && May(c, t, e)
    ensures TimeInv(c, Step(c, t, e))
  {
    hide Next, Enabled, TimeInv;
    match e
    case Elapse(_) => ElapseTime(c, t, e);
    case Do(a) =>
      if a.WriteDone? {
        SendTime(c, t);
      } else {
        OtherTime(c, t, a);
      }
  }

  lemma ElapseTime(c: Clocks, t: Timed, e: Event)
    requires TimeInv(c, t) && May(c, t, e) && e.Elapse?
    ensures TimeInv(c, Step(c, t, e))
  {
  }

  lemma SendTime(c: Clocks, t: Timed)
    requires TimeInv(c, t) && May(c, t, Do(WriteDone))
    ensures TimeInv(c, Step(c, t, Do(WriteDone)))
  {
    hide Next, Enabled;
    PhaseAfter(t.pump, WriteDone);
  }

  lemma OtherTime(c: Clocks, t: Timed, a: Action)
    requires TimeInv(c, t) && May(c, t, Do(a)) && !a.WriteDone?
    ensures TimeInv(c, Step(c, t, Do(a)))
  {
    hide Next, Enabled, GapsWithin;
    PhaseAfter(t.pump, a);
  }

  lemma {:induction false} RunTime(c: Clocks, t: Timed, es: seq<Event>, u: Timed)
    requires TimeInv(c, t) && TimedRun(c, t, es, u)
    ensures TimeInv(c, u)
    decreases |es|
  {
    hide TimeInv, Step, May;
    if es != [] {
      StepTime(c, t, es[0]);
      RunTime(c, Step(c, t, es[0]), es[1..], u);
    }
  }

  /** How many automatic heart-beats have been started. */
  function BeatsIn(es: seq<Event>): nat
  {
    if es == [] then 0 else (if es[0] == Do(Timeout) then 1 else 0) + BeatsIn(es[1..])
  }

  lemma {:induction false} RunSilences(c: Clocks, t: Timed, es: seq<Event>, u: Timed)
    requires TimedRun(c, t, es, u)
    ensures |u.silences| == |t.silences| + BeatsIn(es)
    decreases |es|
  {
    hide Next, Enabled;
    if es != [] {
      RunSilences(c, Step(c, t, es[0]), es[1..], u);
    }
  }

  /**
   * Heart-beat timing: in every timed run transmissions complete at most a period and a write apart,
   * the silence of a live pump is within that too, and no automatic beat starts before a full period
   * of silence. There is one transmission for the handshake and one for each entry of the log, and one
   * silence for each automatic beat.
   */
  lemma HeartbeatTiming(c: Clocks, at: nat, es: seq<Event>, t: Timed)
    requires TimedRun(c, Start(at), es, t)
    ensures t.sends != [] && t.sends[0] == at && GapsWithin(t.sends, c.period + c.limit)
    ensures |t.sends| == 1 + |t.pump.log| && |t.silences| == BeatsIn(es)
    ensures Live(t.pump) ==> t.now <= Last(t.sends) + c.period + c.limit
    ensures forall i :: 0 <= i < |t.silences| ==> t.silences[i].1 == t.silences[i].0 + c.period
  {
    RunTime(c, Start(at), es, t);
    RunSilences(c, Start(at), es, t);
    RunStart(c, Start(at), es, t);
    InitInv(true);
    RunLog(c, Start(at), es, t);
  }

  lemma StepLog(c: Clocks, t: Timed, e: Event)
    requires Inv(t.pump) && t.sends != [] && May(c, t, e)
    ensures var u := Step(c, t, e);
            Inv(u.pump) && |u.sends| - |u.pump.log| == |t.sends| - |t.pump.log|
  {
    hide Next, Enabled, Inv;
    if e.Do? {
      NextInv(t.pump, e.action);
      LogAfter(t.pump, e.action);
    }
  }

  lemma {:induction false} RunLog(c: Clocks, t: Timed, es: seq<Event>, u: Timed)
    requires Inv(t.pump) && TimedRun(c, t, es, u)
    ensures |u.sends| - |u.pump.log| == |t.sends| - |t.pump.log|
    decreases |es|
  {
    hide Step, May, Inv;
    if es != [] {
      StepLog(c, t, es[0]);
      RunLog(c, Step(c, t, es[0]), es[1..], u);
    }
  }

  lemma {:induction false} RunStart(c: Clocks, t: Timed, es: seq<Event>, u: Timed)
    requires TimedRun(c, t, es, u) && t.sends != []
    ensures u.sends != [] && u.sends[0] == t.sends[0]
    decreases |es|
  {
    hide Next, Enabled;
    if es != [] {
      RunStart(c, Step(c, t, es[0]), es[1..], u);
    }
  }

  /** The bound is attained: a beat after a whole period of silence whose write takes as long as it may. */
  lemma {:induction false} BoundAttained(c: Clocks, at: nat) returns (es: seq<Event>, t: Timed)
    ensures TimedRun(c, Start(at), es, t) && t.sends == [at, at + c.period + c.limit] && |t.silences| == 1
  {
    hide TimedRun;
    es, t := [], Start(at);
    EmptyRun(c, t);
    es, t := Extended(c, Start(at), es, t, Elapse(c.period));
    es, t := Extended(c, Start(at), es, t, Do(Timeout));
    es, t := Extended(c, Start(at), es, t, Elapse(c.limit));
    es, t := Extended(c, Start(at), es, t, Do(WriteSome(1)));
    es, t := Extended(c, Start(at), es, t, Do(WriteDone));
  }

  lemma EmptyRun(c: Clocks, t: Timed)
    ensures TimedRun(c, t, [], t)
  {
  }

  lemma {:induction false} Extended(c: Clocks, t: Timed, es: seq<Event>, u: Timed, e: Event)
    returns (more: seq<Event>, v: Timed)
    requires TimedRun(c, t, es, u) && u.sends != [] && May(c, u, e)
    ensures TimedRun(c, t, more, v) && v == Step(c, u, e)
    decreases |es|
  {
    hide Next, Enabled;
    if es == [] {
      more, v := [e], Step(c, u, e);
      assert more[1..] == [];
    } else {
      var rest;
      rest, v := Extended(c, Step(c, t, es[0]), es[1..], u, e);
      more := [es[0]] + rest;
      assert more[1..] == rest;
    }
  }

  // The peer

  /** Transmission `i` is heard `delays[i]` later, the delays varying by at most `jitter`. */
  ghost predicate Delays(t: Timed, delays: seq<nat>, least: nat, jitter: nat)
  {
    |delays| == |t.sends| && forall i :: 0 <= i < |delays| ==> least <= delays[i] <= least + jitter
  }

  /** `read` is when the peer last heard something, as of `at`. */
  ghost predicate LastReadAt(t: Timed, delays: seq<nat>, at: nat, read: nat)
    requires |delays| == |t.sends|
  {
    read <= at && forall i :: 0 <= i < |t.sends| && t.sends[i] + delays[i] <= at ==> t.sends[i] + delays[i] <= read
  }

  /** The last of the first `n` transmissions to have been heard by `at`. */
  lemma {:induction false} LastHeard(t: Timed, delays: seq<nat>, at: nat, n: nat) returns (k: nat)
    requires |delays| == |t.sends| && 0 < n <= |t.sends| && t.sends[0] + delays[0] <= at
    ensures k < n && t.sends[k] + delays[k] <= at
    ensures k + 1 < n ==> at < t.sends[k + 1] + delays[k + 1]
    decreases n
  {
    if t.sends[n - 1] + delays[n - 1] <= at {
      k := n - 1;
    } else {
      k := LastHeard(t, delays, at, n - 1);
    }
  }

  /**
   * No false alarm: if a write and the variation of the delay together take at most a period, a peer
   * that supervises with a tolerance of two periods does not find the silence too long, at any instant
   * after the first transmission is heard for which the pump's doings are known.
   */
  lemma NoFalseAlarm(
    c: Clocks, at: nat, es: seq<Event>, t: Timed, delays: seq<nat>, least: nat, jitter: nat, poll: nat, read: nat
  )
    requires TimedRun(c, Start(at), es, t) && Live(t.pump)
    requires Delays(t, delays, least, jitter) && c.limit + jitter <= c.period
    requires |t.sends| > 0 && t.sends[0] + delays[0] <= poll <= t.now + least
    requires LastReadAt(t, delays, poll, read)
    ensures !(poll - read > 2 * c.period)
  {
    hide TimedRun;
    HeartbeatTiming(c, at, es, t);
    var k := LastHeard(t, delays, poll, |t.sends|);
    if k + 1 < |t.sends| {
      assert t.sends[k + 1] <= t.sends[k] + (c.period + c.limit);
    }
    assert poll <= t.sends[k] + delays[k] + 2 * c.period;
  }
}
