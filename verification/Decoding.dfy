/**
 * The streaming decoder: `ClientCodec::decode` driven by socket reads. Everything is stated for an
 * arbitrary way `read` of turning frames into messages, so that it covers this client
 * (`ToServerMsg`) and a peer that chunks client frames (`ToClientMsg`) alike.
 */
module Decoding {
  import opened Octets
  import opened Frames
  import opened Parsing
  import opened Stability

  function StripEol(s: Bytes): (t: Bytes)
    ensures t != [] ==> !IsEol(t[0])
    ensures |t| <= |s|
  {
    s[Span(IsEol, s)..]
  }

  lemma StripAppend(a: Bytes, b: Bytes)
    ensures StripEol(a) != [] ==> StripEol(a + b) == StripEol(a) + b
    ensures StripEol(a) == [] ==> StripEol(a + b) == StripEol(b)
  {
    SpanAppend(IsEol, a, b);
    var n := Span(IsEol, a);
    if n < |a| {
      Drop(a, b, n);
    } else {
      var m := Span(IsEol, b);
      SpanIs(IsEol, a + b, |a| + m);
      DropPrefix(a, b);
      DropTwice(a + b, |a|, m);
    }
  }

  lemma StripIdempotent(s: Bytes)
    ensures StripEol(StripEol(s)) == StripEol(s)
  {
    SpanIs(IsEol, StripEol(s), 0);
  }

  lemma StripFirst(a: Bytes, b: Bytes)
    ensures StripEol(StripEol(a) + b) == StripEol(a + b)
  {
    StripAppend(a, b);
    StripIdempotent(a);
    StripAppend(StripEol(a), b);
    assert [] + b == b;
  }

  /** An optional line ending taken with a frame is one the next call would have stripped. */
  lemma StripAfterOptional(s: Bytes)
    ensures StripEol(s[OptLineEnding(s)..]) == StripEol(s)
  {
    var n := OptLineEnding(s);
    assert s == s[..n] + s[n..];
    SpanIs(IsEol, s[..n], n);
    StripAppend(s[..n], s[n..]);
  }

  /**
   * A settled verdict of `parse_frame`, seen again once more input has arrived: failure stays, and a
   * frame stays the same frame, up to a trailing line ending that the next call would strip.
   */
  ghost predicate StaysSettled(s: Bytes, t: Bytes)
  {
    var before, later := ParsedFrame(s), ParsedFrame(s + t);
    && (before.Fail? ==> later.Fail?)
    && (before.Done? ==>
          && later.Done? && later.value == before.value
          && before.used <= later.used <= before.used + 2
          && StripEol((s + t)[later.used..]) == StripEol(s[before.used..] + t))
  }

  lemma LeadSettled(s: Bytes, t: Bytes)
    requires s != "\r" && s != []
    ensures OptLineEnding(s + t) == OptLineEnding(s)
  {
    LineEndingExtends(s, t);
  }

  lemma TrailGrows(s: Bytes, t: Bytes)
    ensures OptLineEnding(s) <= OptLineEnding(s + t) <= OptLineEnding(s) + 2
    ensures StripEol((s + t)[OptLineEnding(s + t)..]) == StripEol(s[OptLineEnding(s)..] + t)
  {
    LineEndingExtends(s, t);
    StripAfterOptional(s + t);
    StripAfterOptional(s);
    StripFirst(s, t);
    StripFirst(s[OptLineEnding(s)..], t);
  }

  lemma WithTrailSettled(s: Bytes, t: Bytes, before: Parsed<Frame>, later: Parsed<Frame>)
    requires before.Done? ==> 0 < before.used <= |s|
    requires later.Done? ==> 0 < later.used <= |s + t|
    requires Extends(before, later, |s|)
    ensures before.Fail? ==> later.Fail?
    ensures before.Done? ==>
              var n, m := WithTrail(before, s).used, WithTrail(later, s + t).used;
              && later.Done? && later.value == before.value && n <= m <= n + 2
              && StripEol((s + t)[m..]) == StripEol(s[n..] + t)
  {
    hide OptLineEnding, StripEol;
    if before.Done? {
      var n := before.used;
      Drop(s, t, n);
      TrailGrows(s[n..], t);
      DropTwice(s, n, OptLineEnding(s[n..]));
      DropTwice(s + t, n, OptLineEnding((s + t)[n..]));
    }
  }

  lemma ParsedFrameSettled(s: Bytes, t: Bytes)
    requires s != "\r"
    ensures StaysSettled(s, t)
  {
    if s != [] {
      var lead := OptLineEnding(s);
      var s1 := s[lead..];
      LeadSettled(s, t);
      Drop(s, t, lead);
      FrameCoreExtends(s1, t);
      WithTrailSettled(s1, t, FrameCore(s1), FrameCore(s1 + t));
      DropMore(s, lead, WithTrail(FrameCore(s1), s1));
      DropMore(s + t, lead, WithTrail(FrameCore(s1 + t), s1 + t));
    }
  }

  lemma DropMore(s: Bytes, lead: nat, r: Parsed<Frame>)
    requires lead <= |s| && (r.Done? ==> r.used <= |s| - lead)
    ensures r.Done? ==> s[Shift(r, lead).used..] == s[lead..][r.used..]
  {
  }

  /** Settled verdicts of `parse_frame` survive every continuation, save on a buffer holding a lone CR. */
  lemma VerdictStableIff(s: Bytes)
    ensures (forall t :: StaysSettled(s, t)) <==> s != "\r"
  {
    if s != "\r" {
      forall t ensures StaysSettled(s, t) {
        ParsedFrameSettled(s, t);
      }
    } else {
      LoneCrUnstable();
    }
  }

  lemma LoneCrUnstable()
    ensures !StaysSettled("\r", "\nA")
  {
    SpanIs(IsAlpha, "\r", 0);
    SpanIs(IsAlpha, "A", 1);
    var s: Bytes := "\r";
    assert s[0..] == s;
    assert s + "\nA" == "\r\nA";
    var t: Bytes := "\r\nA";
    assert t[2..] == "A";
  }

  // One call of `decode`

  datatype Status = Waiting | TooLarge | Malformed | Rejected(error: Error)

  /** A decoded message, with the size of its frame from command to NUL. */
  datatype Item<+M> = Item(msg: M, size: nat)

  datatype Step<+M> =
    | Got(item: Item<M>, rest: Bytes)
    | Stop(status: Status, rest: Bytes)

  predicate Exceeds(n: nat, bound: Option<nat>)
  {
    bound.Some? && n > bound.value
  }

  /** What `decode` makes of a buffer without leading line endings. */
  function Judge<M>(read: Frame -> Result<M>, bound: Option<nat>, t: Bytes, core: Parsed<Frame>): (r: Step<M>)
    requires core.Done? ==> 0 < core.used <= |t|
    ensures |r.rest| <= |t|
    ensures r.Got? ==> |r.rest| < |t|
  {
    match core
    case Incomplete => Stop(if Exceeds(|t|, bound) then TooLarge else Waiting, t)
    case Fail => Stop(Malformed, t)
    case Done(f, n) =>
      var rest := t[WithTrail(core, t).used..];
      match read(f)
      case Ok(m) => Got(Item(m, n), rest)
      case Err(e) => Stop(Rejected(e), rest)
  }

  function DecodeStep<M>(read: Frame -> Result<M>, bound: Option<nat>, s: Bytes): (r: Step<M>)
    ensures |r.rest| <= |s|
    ensures r.Got? ==> |r.rest| < |s|
  {
    var t := StripEol(s);
    if t == [] then Stop(Waiting, t) else Judge(read, bound, t, FrameCore(t))
  }

  /** Nothing before the first octet that is not a line ending matters. */
  lemma DecodeStepStripped<M>(read: Frame -> Result<M>, bound: Option<nat>, s: Bytes, t: Bytes)
    requires StripEol(s) == StripEol(t)
    ensures DecodeStep(read, bound, s) == DecodeStep(read, bound, t)
  {
  }

  /** A call on a buffer that starts with a whole frame the reader accepts. */
  lemma StepGets<M>(read: Frame -> Result<M>, bound: Option<nat>, t: Bytes, f: Frame, n: nat)
    requires t != [] && StripEol(t) == t && FrameCore(t) == Done(f, n) && read(f).Ok?
    ensures n <= |t| && OptLineEnding(t[n..]) <= |t| - n
    ensures DecodeStep(read, bound, t) == Got(Item(read(f).value, n), t[n..][OptLineEnding(t[n..])..])
  {
    hide FrameCore, StripEol, OptLineEnding;
    assert 0 < FrameCore(t).used <= |t|;
    DropTwice(t, n, OptLineEnding(t[n..]));
  }

  /** A call on a buffer that starts with a whole frame the reader rejects: the frame is taken all the same. */
  lemma StepRejects<M>(read: Frame -> Result<M>, bound: Option<nat>, t: Bytes, f: Frame, n: nat)
    requires t != [] && StripEol(t) == t && FrameCore(t) == Done(f, n) && read(f).Err?
    ensures n <= |t| && OptLineEnding(t[n..]) <= |t| - n
    ensures DecodeStep(read, bound, t) == Stop(Rejected(read(f).error), t[n..][OptLineEnding(t[n..])..])
  {
    hide FrameCore, StripEol, OptLineEnding;
    assert 0 < FrameCore(t).used <= |t|;
    DropTwice(t, n, OptLineEnding(t[n..]));
  }

  /** A call on a buffer that holds part of a frame. */
  lemma StepWaits<M>(read: Frame -> Result<M>, bound: Option<nat>, t: Bytes)
    requires t != [] && StripEol(t) == t && FrameCore(t).Incomplete?
    ensures DecodeStep(read, bound, t) == Stop(if Exceeds(|t|, bound) then TooLarge else Waiting, t)
  {
    hide FrameCore, StripEol;
  }

  /** A buffer that a call leaves as it is, waiting, holds part of a frame or nothing. */
  lemma StepWaited<M>(read: Frame -> Result<M>, bound: Option<nat>, t: Bytes)
    requires t != [] && DecodeStep(read, bound, t) == Stop(Waiting, t)
    ensures StripEol(t) == t && FrameCore(t).Incomplete?
  {
    hide FrameCore, StripEol;
  }

  // Draining the buffer after a read

  datatype Drained<+M> = Drained(items: seq<Item<M>>, status: Status, rest: Bytes)

  function Prepend<M>(items: seq<Item<M>>, d: Drained<M>): Drained<M>
  {
    d.(items := items + d.items)
  }

  /** Calling `decode` until it asks for more data or fails; each message shrinks the buffer. */
  function Drain<M>(read: Frame -> Result<M>, bound: Option<nat>, s: Bytes): Drained<M>
    decreases |s|
  {
    match DecodeStep(read, bound, s)
    case Stop(status, rest) => Drained([], status, rest)
    case Got(item, rest) => Prepend([item], Drain(read, bound, rest))
  }

  lemma DrainStripped<M>(read: Frame -> Result<M>, bound: Option<nat>, s: Bytes, t: Bytes)
    requires StripEol(s) == StripEol(t)
    ensures Drain(read, bound, s) == Drain(read, bound, t)
  {
    DecodeStepStripped(read, bound, s, t);
  }

  /** A call on a buffer and the same call once more input has arrived. */
  ghost predicate StepExtends<M(!new)>(before: Step<M>, later: Step<M>, a: Bytes, b: Bytes)
  {
    match before
    case Got(item, rest) => later.Got? && later.item == item && StripEol(later.rest) == StripEol(rest + b)
    case Stop(Waiting, rest) => StripEol(rest + b) == StripEol(a + b)
    case Stop(TooLarge, _) => true
    case Stop(status, rest) => later.Stop? && later.status == status && StripEol(later.rest) == StripEol(rest + b)
  }

  lemma JudgeAppend<M(!new)>(
    read: Frame -> Result<M>, bound: Option<nat>, t: Bytes, b: Bytes, core: Parsed<Frame>, later: Parsed<Frame>
  )
    requires core.Done? ==> 0 < core.used <= |t|
    requires later.Done? ==> 0 < later.used <= |t + b|
    requires Extends(core, later, |t|)
    ensures StepExtends(Judge(read, bound, t, core), Judge(read, bound, t + b, later), t, b)
  {
    WithTrailSettled(t, b, core, later);
  }

  lemma DecodeStepAppend<M(!new)>(read: Frame -> Result<M>, bound: Option<nat>, a: Bytes, b: Bytes)
    ensures StepExtends(DecodeStep(read, bound, a), DecodeStep(read, bound, a + b), a, b)
  {
    var t := StripEol(a);
    StripAppend(a, b);
    StripFirst(a, b);
    if t != [] {
      FrameCoreExtends(t, b);
      JudgeAppend(read, bound, t, b, FrameCore(t), FrameCore(t + b));
    } else {
      assert t + b == b;
    }
  }

  /** More input after a drained buffer: the drain goes on where it stopped waiting, and no failure is undone. */
  lemma {:induction false} DrainAppend<M(!new)>(read: Frame -> Result<M>, bound: Option<nat>, a: Bytes, b: Bytes)
    ensures var d := Drain(read, bound, a);
            match d.status
            case Waiting => Drain(read, bound, a + b) == Prepend(d.items, Drain(read, bound, d.rest + b))
            case TooLarge => true
            case _ =>
              var whole := Drain(read, bound, a + b);
              && whole.items == d.items && whole.status == d.status
              && StripEol(whole.rest) == StripEol(d.rest + b)
    decreases |a|
  {
    hide DecodeStep, Drain, StripEol;
    DecodeStepAppend(read, bound, a, b);
    match DecodeStep(read, bound, a)
    case Got(item, rest) =>
      var later := DecodeStep(read, bound, a + b);
      DrainAppend(read, bound, rest, b);
      DrainGets(read, bound, a);
      DrainGets(read, bound, a + b);
      DrainStripped(read, bound, later.rest, rest + b);
      var d := Drain(read, bound, rest);
      if d.status.Waiting? {
        PrependAgain([item], d.items, Drain(read, bound, d.rest + b));
      }
    case Stop(status, rest) =>
      DrainStops(read, bound, a);
      if status.Waiting? {
        DrainStripped(read, bound, rest + b, a + b);
        var more := Drain(read, bound, rest + b);
        assert [] + more.items == more.items;
      } else if !status.TooLarge? {
        DrainStops(read, bound, a + b);
      }
  }

  lemma PrependAgain<M>(a: seq<Item<M>>, b: seq<Item<M>>, d: Drained<M>)
    ensures Prepend(a, Prepend(b, d)) == Prepend(a + b, d)
  {
    assert a + (b + d.items) == (a + b) + d.items;
  }

  // Whole sessions

  /** What a reader has after some reads: messages so far, status, buffer, and the chunks it never read. */
  datatype Session<+M> = Session(items: seq<Item<M>>, status: Status, buffer: Bytes, unread: seq<Bytes>)

  /** Append each read to the buffer and drain it, until a failure ends the stream. */
  function Feed<M>(read: Frame -> Result<M>, bound: Option<nat>, buffer: Bytes, chunks: seq<Bytes>): Session<M>
    decreases |chunks|
  {
    if chunks == [] then Session([], Waiting, buffer, [])
    else
      var d := Drain(read, bound, buffer + chunks[0]);
      if d.status != Waiting then Session(d.items, d.status, d.rest, chunks[1..])
      else
        var more := Feed(read, bound, d.rest, chunks[1..]);
        more.(items := d.items + more.items)
  }

  /** A session agrees with decoding everything at once. */
  ghost predicate Agrees<M>(session: Session<M>, whole: Drained<M>)
  {
    && session.items == whole.items
    && session.status == whole.status
    && StripEol(session.buffer + Flatten(session.unread)) == StripEol(whole.rest)
    && (session.status.Waiting? ==> session.buffer == whole.rest && session.unread == [])
  }

  lemma StopIsStripped<M>(read: Frame -> Result<M>, bound: Option<nat>, s: Bytes)
    requires DecodeStep(read, bound, s).Stop? && DecodeStep(read, bound, s).status.Waiting?
    ensures StripEol(DecodeStep(read, bound, s).rest) == StripEol(s)
  {
    StripIdempotent(s);
  }

  /** What a waiting drain leaves behind is left alone by another call. */
  lemma {:induction false} DrainRestSettled<M(!new)>(read: Frame -> Result<M>, bound: Option<nat>, s: Bytes)
    requires Drain(read, bound, s).status.Waiting?
    ensures Drain(read, bound, Drain(read, bound, s).rest) == Drained([], Waiting, Drain(read, bound, s).rest)
    decreases |s|
  {
    hide DecodeStep;
    match DecodeStep(read, bound, s)
    case Got(item, rest) =>
      DrainRestSettled(read, bound, rest);
    case Stop(_, rest) =>
      StopIsStripped(read, bound, s);
      DrainStripped(read, bound, s, rest);
  }

  lemma {:induction false} FeedAgrees<M(!new)>(
    read: Frame -> Result<M>, bound: Option<nat>, buffer: Bytes, chunks: seq<Bytes>
  )
    requires Drain(read, bound, buffer) == Drained([], Waiting, buffer)
    requires !Feed(read, bound, buffer, chunks).status.TooLarge?
    ensures Agrees(Feed(read, bound, buffer, chunks), Drain(read, bound, buffer + Flatten(chunks)))
    decreases |chunks|
  {
    hide DecodeStep, StripEol;
    if chunks == [] {
      assert buffer + [] == buffer;
    } else {
      var first, later := buffer + chunks[0], Flatten(chunks[1..]);
      var d := Drain(read, bound, first);
      Regroup(buffer, chunks[0], later);
      DrainAppend(read, bound, first, later);
      if d.status.Waiting? {
        DrainRestSettled(read, bound, first);
        FeedAgrees(read, bound, d.rest, chunks[1..]);
      }
    }
  }

  lemma DrainStops<M>(read: Frame -> Result<M>, bound: Option<nat>, s: Bytes)
    requires DecodeStep(read, bound, s).Stop?
    ensures Drain(read, bound, s) == Drained([], DecodeStep(read, bound, s).status, DecodeStep(read, bound, s).rest)
  {
    hide DecodeStep;
  }

  lemma DrainGets<M>(read: Frame -> Result<M>, bound: Option<nat>, s: Bytes)
    requires DecodeStep(read, bound, s).Got?
    ensures var step := DecodeStep(read, bound, s);
            Drain(read, bound, s) == Prepend([step.item], Drain(read, bound, step.rest))
  {
    hide DecodeStep;
  }

  lemma DrainNothing<M>(read: Frame -> Result<M>, bound: Option<nat>)
    ensures Drain(read, bound, []) == Drained([], Waiting, [])
  {
  }

  /**
   * Chunking invariance: however a stream is cut into reads, the messages, the first failure and
   * the undecoded residue are those of decoding the whole stream at once, unless the size bound was hit.
   */
  lemma {:induction false} ChunkingInvariance<M(!new)>(read: Frame -> Result<M>, bound: Option<nat>, chunks: seq<Bytes>)
    requires !Feed(read, bound, [], chunks).status.TooLarge?
    ensures Agrees(Feed(read, bound, [], chunks), Drain(read, bound, Flatten(chunks)))
  {
    hide Drain, Feed, Agrees;
    DrainNothing(read, bound);
    FeedAgrees(read, bound, [], chunks);
    assert [] + Flatten(chunks) == Flatten(chunks);
  }
}
