/** Watching for a silent server: `poll_server_timeout`, its ticker, and when silence is reported. */
module Supervision {
  /** Ticks more than this late count as missed (milliseconds). */
  const LATE := 5

  /** The next deadline after a tick at `now`: a missed tick delays the following ones. */
  function NextDeadline(deadline: nat, period: nat, now: nat): nat
  {
    if now > deadline + LATE then now + period else deadline + period
  }

  /** The deadline once every due tick has been taken. */
  function DrainedDeadline(deadline: nat, period: nat, now: nat): nat
    requires period > 0
    decreases if now < deadline then 0 else now - deadline + 1
  {
    if now < deadline then deadline else DrainedDeadline(NextDeadline(deadline, period, now), period, now)
  }

  /** Draining re-arms the ticker: the next tick is due within one period. */
  lemma {:induction false} DrainedWithinPeriod(deadline: nat, period: nat, now: nat)
    requires period > 0
    ensures now < DrainedDeadline(deadline, period, now)
    ensures deadline <= now ==> DrainedDeadline(deadline, period, now) <= now + period
    ensures deadline > now ==> DrainedDeadline(deadline, period, now) == deadline
    decreases if now < deadline then 0 else now - deadline + 1
  {
    if deadline <= now {
      DrainedWithinPeriod(NextDeadline(deadline, period, now), period, now);
    }
  }

  /**
   * A missed tick delays those after it: taken more than `LATE` after it was due, the next is due a whole period
   * from then; taken on time, a whole period after it was due.
   */
  lemma {:induction false} TickDelayed(deadline: nat, period: nat, now: nat)
    requires period > 0 && deadline <= now
    ensures deadline + LATE < now ==> DrainedDeadline(deadline, period, now) == now + period
    ensures now <= deadline + LATE && now < deadline + period ==>
              DrainedDeadline(deadline, period, now) == deadline + period
  {
    var next := NextDeadline(deadline, period, now);
    assert DrainedDeadline(deadline, period, now) == DrainedDeadline(next, period, now);
  }

  class Ticker {
    const period: nat
    var deadline: nat

    /** The first tick is due at once. */
    constructor (p: nat, now: nat)
      ensures period == p && deadline == now
    {
      period := p;
      deadline := now;
    }

    method PollTick(now: nat) returns (ready: bool)
      modifies this
      ensures ready <==> old(deadline) <= now
      ensures deadline == if ready then NextDeadline(old(deadline), period, now) else old(deadline)
    {
      ready := deadline <= now;
      if ready {
        deadline := if now > deadline + LATE then now + period else deadline + period;
      }
    }
  }

  /** The part of `ClientTransport` that supervises the server. */
  class Supervisor {
    const ticker: Ticker
    const tolerance: nat
    var lastRead: nat

    constructor (period: nat, now: nat, read: nat)
      requires period > 0
      ensures Valid() && ticker.period == period && ticker.deadline == now && lastRead == read
      ensures fresh(ticker)
    {
      ticker := new Ticker(period, now);
      tolerance := period * 2;
      lastRead := read;
    }

    /** Negotiated periods are never zero, which is why draining the ticker ends. */
    predicate Valid()
    {
      ticker.period > 0 && tolerance == 2 * ticker.period
    }

    method PollServerTimeout(now: nat) returns (failed: bool)
      requires Valid() && lastRead <= now
      modifies ticker
      ensures failed <==> now - lastRead > 2 * ticker.period
      ensures ticker.deadline == DrainedDeadline(old(ticker.deadline), ticker.period, now)
    {
      var ready := true;
      while ready
        invariant DrainedDeadline(ticker.deadline, ticker.period, now) ==
                  DrainedDeadline(old(ticker.deadline), ticker.period, now)
        invariant !ready ==> now < ticker.deadline
        decreases ready, if now < ticker.deadline then 0 else now - ticker.deadline + 1
      {
        ready := ticker.PollTick(now);
      }
      failed := now - lastRead > tolerance;
    }
  }

  // Timed runs of a supervised stream

  datatype Watch = Watch(now: nat, lastRead: nat, deadline: nat, failedAt: nat, failed: bool)

  datatype Event = Elapse(ms: nat) | Read | Poll

  /** Time does not run past a due tick: the reading stream is polled when it fires. */
  predicate May(w: Watch, e: Event)
  {
    !w.failed && (e.Elapse? ==> w.now + e.ms <= w.deadline)
  }

  function Step(period: nat, w: Watch, e: Event): Watch
    requires period > 0 && w.lastRead <= w.now
  {
    match e
    case Elapse(ms) => w.(now := w.now + ms)
    case Read => w.(lastRead := w.now)
    case Poll =>
      var quiet := w.now - w.lastRead;
      w.(deadline := DrainedDeadline(w.deadline, period, w.now),
         failed := quiet > 2 * period, failedAt := if quiet > 2 * period then w.now else w.failedAt)
  }

  ghost predicate WatchRun(period: nat, w: Watch, es: seq<Event>, v: Watch)
    requires period > 0
    decreases |es|
  {
    if es == [] then v == w
    else May(w, es[0]) && w.lastRead <= w.now && WatchRun(period, Step(period, w, es[0]), es[1..], v)
  }

  /** Three periods after the last read, or the moment supervision began if that is later. */
  function Limit(period: nat, start: nat, w: Watch): nat
  {
    if start > w.lastRead + 3 * period then start else w.lastRead + 3 * period
  }

  ghost predicate WatchInv(period: nat, start: nat, w: Watch)
  {
    && w.lastRead <= w.now
    && (!w.failed ==> w.now <= w.deadline <= Limit(period, start, w))
    && (w.failed ==> w.lastRead + 2 * period < w.failedAt <= Limit(period, start, w))
  }

  lemma StepWatch(period: nat, start: nat, w: Watch, e: Event)
    requires period > 0 && WatchInv(period, start, w) && May(w, e)
    ensures WatchInv(period, start, Step(period, w, e))
  {
    hide DrainedDeadline;
    DrainedWithinPeriod(w.deadline, period, w.now);
  }

  lemma {:induction false} RunWatch(period: nat, start: nat, w: Watch, es: seq<Event>, v: Watch)
    requires period > 0 && WatchInv(period, start, w) && WatchRun(period, w, es, v)
    ensures WatchInv(period, start, v)
    decreases |es|
  {
    hide DrainedDeadline;
    if es != [] {
      StepWatch(period, start, w, es[0]);
      RunWatch(period, start, Step(period, w, es[0]), es[1..], v);
    }
  }

  function Elapsed(es: seq<Event>): nat
  {
    if es == [] then 0 else Elapsed(es[..|es| - 1]) + (if es[|es| - 1].Elapse? then es[|es| - 1].ms else 0)
  }

  /** When the server was last heard from, for reading that began at `start` and a previous read at `read`. */
  function LastReadAfter(start: nat, read: nat, es: seq<Event>): nat
  {
    if es == [] then read
    else if es[|es| - 1].Read? then start + Elapsed(es)
    else LastReadAfter(start, read, es[..|es| - 1])
  }

  lemma {:induction false} ElapsedCons(e: Event, es: seq<Event>)
    ensures Elapsed([e] + es) == (if e.Elapse? then e.ms else 0) + Elapsed(es)
    decreases |es|
  {
    var all := [e] + es;
    if es == [] {
      assert all[..|all| - 1] == [];
    } else {
      assert all[..|all| - 1] == [e] + es[..|es| - 1];
      ElapsedCons(e, es[..|es| - 1]);
    }
  }

  lemma {:induction false} LastReadCons(start: nat, read: nat, e: Event, es: seq<Event>)
    ensures LastReadAfter(start, read, [e] + es) ==
            match e
            case Elapse(ms) => LastReadAfter(start + ms, read, es)
            case Read => LastReadAfter(start, start, es)
            case Poll => LastReadAfter(start, read, es)
    decreases |es|
  {
    var all := [e] + es;
    ElapsedCons(e, es);
    if es == [] {
      assert all[..|all| - 1] == [] && all[|all| - 1] == e;
    } else {
      assert all[..|all| - 1] == [e] + es[..|es| - 1] && all[|all| - 1] == es[|es| - 1];
      LastReadCons(start, read, e, es[..|es| - 1]);
    }
  }

  /** The clock and the last read are those of the events. */
  lemma {:induction false} RunClock(period: nat, w: Watch, es: seq<Event>, v: Watch)
    requires period > 0 && WatchRun(period, w, es, v)
    ensures v.now == w.now + Elapsed(es) && v.lastRead == LastReadAfter(w.now, w.lastRead, es)
    decreases |es|
  {
    hide DrainedDeadline;
    if es != [] {
      RunClock(period, Step(period, w, es[0]), es[1..], v);
      assert es == [es[0]] + es[1..];
      ElapsedCons(es[0], es[1..]);
      LastReadCons(w.now, w.lastRead, es[0], es[1..]);
    }
  }

  /**
   * Silent-server detection: under continuous polling the stream is never failed at or before two
   * periods after the last read, and has failed by three: an unfailed stream has heard from the server
   * within that time. Only a silence already longer than that when supervision begins is reported later,
   * at once.
   */
  lemma SilenceDetected(period: nat, start: nat, read: nat, es: seq<Event>, v: Watch)
    requires period > 0 && read <= start
    requires WatchRun(period, Watch(start, read, start, 0, false), es, v)
    ensures v.now == start + Elapsed(es) && v.lastRead == LastReadAfter(start, read, es)
    ensures v.failed ==> v.lastRead + 2 * period < v.failedAt
    ensures v.failed ==> v.failedAt <= v.lastRead + 3 * period || v.failedAt <= start
    ensures !v.failed ==> v.now <= v.lastRead + 3 * period || v.now <= start
  {
    RunWatch(period, start, Watch(start, read, start, 0, false), es, v);
    RunClock(period, Watch(start, read, start, 0, false), es, v);
  }
}
