/** Streams of printed frames with line endings between them, as a peer receives them. */
module Framing {
  import opened Octets
  import opened Frames
  import opened Parsing
  import opened Grammar
  import opened Completion
  import opened Decoding

  ghost predicate AllEol(s: Bytes)
  {
    forall i :: 0 <= i < |s| ==> IsEol(s[i])
  }

  ghost predicate Gaps(gaps: seq<Bytes>, n: nat)
  {
    |gaps| == n + 1 && forall i :: 0 <= i < |gaps| ==> AllEol(gaps[i])
  }

  /** Frames printed one after another, with a run of line endings before each and after the last. */
  ghost function Stream(frames: seq<Frame>, gaps: seq<Bytes>): Bytes
    requires |gaps| == |frames| + 1
  {
    if frames == [] then gaps[0]
    else gaps[0] + (Serialized(frames[0]) + Stream(frames[1..], gaps[1..]))
  }

  /** A frame that has a spelling and that the reader accepts. */
  ghost predicate Readable<M(!new)>(read: Frame -> Result<M>, f: Frame)
  {
    WireOk(Wire(f)) && read(Wire(f)).Ok?
  }

  ghost predicate AllReadable<M(!new)>(read: Frame -> Result<M>, frames: seq<Frame>)
  {
    forall i :: 0 <= i < |frames| ==> Readable(read, frames[i])
  }

  ghost function ItemOf<M(!new)>(read: Frame -> Result<M>, f: Frame): Item<M>
    requires Readable(read, f)
  {
    Item(read(Wire(f)).value, |Serialized(f)|)
  }

  ghost function ItemsOf<M(!new)>(read: Frame -> Result<M>, frames: seq<Frame>): (items: seq<Item<M>>)
    requires AllReadable(read, frames)
    ensures |items| == |frames|
    ensures forall i :: 0 <= i < |frames| ==> items[i] == ItemOf(read, frames[i])
  {
    if frames == [] then [] else [ItemOf(read, frames[0])] + ItemsOf(read, frames[1..])
  }

  lemma StripGap(gap: Bytes, s: Bytes)
    requires AllEol(gap)
    ensures StripEol(gap + s) == StripEol(s)
  {
    SpanIs(IsEol, gap, |gap|);
    StripAppend(gap, s);
  }

  lemma SerializedStarts(f: Frame)
    requires WireOk(Wire(f))
    ensures Serialized(f) != [] && !IsEol(Serialized(f)[0])
  {
    assert IsAlpha(f.command[0]);
    assert Serialized(f)[0] == f.command[0];
  }

  lemma StripNothing(s: Bytes)
    requires s != [] && !IsEol(s[0])
    ensures StripEol(s) == s
  {
    SpanIs(IsEol, s, 0);
  }

  /** One call on a printed frame, whatever follows it. */
  lemma DecodeSerialized<M(!new)>(read: Frame -> Result<M>, bound: Option<nat>, f: Frame, rest: Bytes)
    requires Readable(read, f)
    ensures var step := DecodeStep(read, bound, Serialized(f) + rest);
            step.Got? && step.item == ItemOf(read, f) && StripEol(step.rest) == StripEol(rest)
  {
    hide FrameCore, StripEol, Serialized, WireOk, Wire, OptLineEnding, DecodeStep;
    var s := Serialized(f) + rest;
    SerializedStarts(f);
    StripNothing(s);
    SerializedParsesIff(f, rest);
    StepGets(read, bound, s, Wire(f), |Serialized(f)|);
    DropPrefix(Serialized(f), rest);
    StripAfterOptional(rest);
  }

  lemma DrainSerialized<M(!new)>(read: Frame -> Result<M>, bound: Option<nat>, gap: Bytes, f: Frame, rest: Bytes)
    requires AllEol(gap) && Readable(read, f)
    ensures Drain(read, bound, gap + (Serialized(f) + rest)) == Prepend([ItemOf(read, f)], Drain(read, bound, rest))
  {
    hide Drain, DecodeStep, Serialized, StripEol, Readable, AllEol;
    var s := Serialized(f) + rest;
    StripGap(gap, s);
    DrainStripped(read, bound, gap + s, s);
    DecodeSerialized(read, bound, f, rest);
    DrainGets(read, bound, s);
    DrainStripped(read, bound, DecodeStep(read, bound, s).rest, rest);
  }

  /**
   * One call in terms of the grammar: it is malformed exactly when what is left of the buffer without leading
   * line endings is something that no continuation turns into a frame. Then nothing of that is taken.
   */
  lemma {:induction false} MalformedIff<M(!new)>(read: Frame -> Result<M>, bound: Option<nat>, s: Bytes)
    ensures var step := DecodeStep(read, bound, s);
            && (step.Stop? && step.status.Malformed? <==> StripEol(s) != [] && !CanSpell(StripEol(s)))
            && (step.Stop? && step.status.Malformed? ==> step.rest == StripEol(s))
  {
    hide FrameCore, StripEol, CanSpell;
    VerdictIff(StripEol(s));
  }

  /**
   * A printed frame that the reader rejects ends the drain, and the frame is taken: what is left decodes to
   * what follows the frame.
   */
  lemma {:induction false} RejectedFrame<M(!new)>(
    read: Frame -> Result<M>, bound: Option<nat>, gap: Bytes, f: Frame, rest: Bytes
  )
    requires AllEol(gap) && WireOk(Wire(f)) && read(Wire(f)).Err?
    ensures var d := Drain(read, bound, gap + (Serialized(f) + rest));
            && d.items == [] && d.status == Rejected(read(Wire(f)).error)
            && Drain(read, bound, d.rest) == Drain(read, bound, rest)
  {
    hide FrameCore, StripEol, Serialized, WireOk, Wire, OptLineEnding, DecodeStep, Drain, AllEol;
    var s := Serialized(f) + rest;
    SerializedStarts(f);
    StripNothing(s);
    StripGap(gap, s);
    SerializedParsesIff(f, rest);
    StepRejects(read, bound, s, Wire(f), |Serialized(f)|);
    DropPrefix(Serialized(f), rest);
    DrainStops(read, bound, s);
    DrainStripped(read, bound, gap + s, s);
    StripAfterOptional(rest);
    DrainStripped(read, bound, rest[OptLineEnding(rest)..], rest);
  }

  /** Printed frames with line endings anywhere between them decode to exactly those frames. */
  lemma {:induction false} DrainStream<M(!new)>(
    read: Frame -> Result<M>, bound: Option<nat>, frames: seq<Frame>, gaps: seq<Bytes>, tail: Bytes
  )
    requires AllReadable(read, frames) && Gaps(gaps, |frames|)
    ensures Drain(read, bound, Stream(frames, gaps) + tail) ==
            Prepend(ItemsOf(read, frames), Drain(read, bound, tail))
    decreases |frames|
  {
    hide Drain, Serialized, Readable, AllEol, StripEol;
    var d := Drain(read, bound, tail);
    if frames == [] {
      StripGap(gaps[0], tail);
      DrainStripped(read, bound, gaps[0] + tail, tail);
      assert [] + d.items == d.items;
    } else {
      var head, more := Serialized(frames[0]), Stream(frames[1..], gaps[1..]);
      Regroup(gaps[0], head + more, tail);
      Regroup(head, more, tail);
      DrainSerialized(read, bound, gaps[0], frames[0], more + tail);
      DrainStream(read, bound, frames[1..], gaps[1..], tail);
      var first, rest := [ItemOf(read, frames[0])], ItemsOf(read, frames[1..]);
      assert first + (rest + d.items) == (first + rest) + d.items;
    }
  }

  /** The whole stream: every frame, in order, and nothing left over. */
  lemma FramingOfSequences<M(!new)>(read: Frame -> Result<M>, bound: Option<nat>, frames: seq<Frame>, gaps: seq<Bytes>)
    requires AllReadable(read, frames) && Gaps(gaps, |frames|)
    ensures Drain(read, bound, Stream(frames, gaps)) == Drained(ItemsOf(read, frames), Waiting, [])
  {
    hide Drain, Stream;
    DrainStream(read, bound, frames, gaps, []);
    DrainNothing(read, bound);
    assert Stream(frames, gaps) + [] == Stream(frames, gaps);
    assert ItemsOf(read, frames) + [] == ItemsOf(read, frames);
  }

  /**
   * A stream that breaks off inside a frame: the frames before it, and the reader waits on the rest unless
   * that is over its bound.
   */
  lemma {:induction false} BrokenOffStream<M(!new)>(
    read: Frame -> Result<M>, bound: Option<nat>, frames: seq<Frame>, gaps: seq<Bytes>, last: Frame, n: nat
  )
    requires AllReadable(read, frames) && Gaps(gaps, |frames|)
    requires WireOk(Wire(last)) && n < |Serialized(last)|
    ensures Drain(read, bound, Stream(frames, gaps) + Serialized(last)[..n]) ==
            Drained(ItemsOf(read, frames), if Exceeds(n, bound) then TooLarge else Waiting, Serialized(last)[..n])
  {
    hide Drain, Stream, Serialized, AllReadable, Gaps, WireOk, Wire;
    var tail := Serialized(last)[..n];
    DrainStream(read, bound, frames, gaps, tail);
    DrainCut(read, bound, last, n);
    assert ItemsOf(read, frames) + [] == ItemsOf(read, frames);
  }

  lemma DrainCut<M(!new)>(read: Frame -> Result<M>, bound: Option<nat>, f: Frame, n: nat)
    requires WireOk(Wire(f)) && n < |Serialized(f)|
    ensures var cut := Serialized(f)[..n];
            Drain(read, bound, cut) == Drained([], if Exceeds(n, bound) then TooLarge else Waiting, cut)
  {
    hide Drain, DecodeStep, FrameCore, Serialized, WireOk, Wire, StripEol;
    var cut := Serialized(f)[..n];
    if n == 0 {
      assert cut == [];
      DrainNothing(read, bound);
    } else {
      SerializedStarts(f);
      SerializedPrefixWaits(f, n);
      assert cut[0] == Serialized(f)[0];
      StripNothing(cut);
      StepWaits(read, bound, cut);
      DrainStops(read, bound, cut);
    }
  }

  /**
   * The bound does depend on the cut: every frame longer than the bound allows is accepted
   * when it arrives in one read and refused when a read ends inside it past the bound.
   */
  lemma {:induction false} RefusalDependsOnCut<M(!new)>(read: Frame -> Result<M>, max: nat, f: Frame, n: nat)
    requires Readable(read, f) && max < n < |Serialized(f)|
    ensures Feed(read, Some(max), [], [Serialized(f)]).items == [ItemOf(read, f)]
    ensures Feed(read, Some(max), [], [Serialized(f)[..n], Serialized(f)[n..]]).status.TooLarge?
  {
    hide Drain, Serialized, Readable, WireOk, Wire;
    var s := Serialized(f);
    var cut, rest := s[..n], s[n..];
    ReadableIsWireOk(read, f);
    DrainCut(read, Some(max), f, n);
    DrainWhole(read, Some(max), f);
    FeedOne(read, Some(max), s);
    FeedStops(read, Some(max), cut, rest);
  }

  lemma ReadableIsWireOk<M(!new)>(read: Frame -> Result<M>, f: Frame)
    requires Readable(read, f)
    ensures WireOk(Wire(f))
  {
    hide WireOk, Wire;
  }

  lemma DrainWhole<M(!new)>(read: Frame -> Result<M>, bound: Option<nat>, f: Frame)
    requires Readable(read, f)
    ensures Drain(read, bound, Serialized(f)) == Drained([ItemOf(read, f)], Waiting, [])
  {
    hide Drain, Serialized, Readable;
    DrainNothing(read, bound);
    DrainSerialized(read, bound, [], f, []);
    assert [] + (Serialized(f) + []) == Serialized(f);
  }

  lemma FeedOne<M(!new)>(read: Frame -> Result<M>, bound: Option<nat>, s: Bytes)
    ensures Feed(read, bound, [], [s]).items == Drain(read, bound, s).items
  {
    hide Drain;
    var chunks: seq<Bytes> := [s];
    assert [] + s == s && chunks[1..] == [];
    var d := Drain(read, bound, s);
    assert Feed(read, bound, d.rest, chunks[1..]).items == [];
    assert d.items + [] == d.items;
  }

  lemma FeedStops<M(!new)>(read: Frame -> Result<M>, bound: Option<nat>, s: Bytes, more: Bytes)
    requires Drain(read, bound, s).status != Waiting
    ensures Feed(read, bound, [], [s, more]).status == Drain(read, bound, s).status
  {
    hide Drain;
    assert [] + s == s;
  }
}
