/** What the frame size bound does over whole sessions. */
module SizeBound {
  import opened Octets
  import opened Frames
  import opened Parsing
  import opened Stability
  import opened Decoding

  /** The bound only ever turns waiting on too long a residue into a refusal. */
  lemma {:induction false} DrainBounded<M(!new)>(read: Frame -> Result<M>, max: nat, s: Bytes)
    ensures var free := Drain(read, None, s);
            Drain(read, Some(max), s) ==
            if free.status.Waiting? && |free.rest| > max then free.(status := TooLarge) else free
    ensures !Drain(read, None, s).status.TooLarge?
    decreases |s|
  {
    hide DecodeStep;
    var free := DecodeStep(read, None, s);
    StepBounded(read, max, s);
    if free.Got? {
      DrainBounded(read, max, free.rest);
    }
  }

  lemma StepBounded<M(!new)>(read: Frame -> Result<M>, max: nat, s: Bytes)
    ensures var free, bounded := DecodeStep(read, None, s), DecodeStep(read, Some(max), s);
            && (free.Got? ==> bounded == free)
            && (free.Stop? ==>
                  !free.status.TooLarge? &&
                  bounded == if free.status.Waiting? && |free.rest| > max then free.(status := TooLarge) else free)
  {
    hide FrameCore, StripEol;
  }

  /** The residue of an unbounded reader exceeds the bound while it waits for more. */
  ghost predicate Over<M(!new)>(read: Frame -> Result<M>, max: nat, s: Bytes)
  {
    var free := Drain(read, None, s);
    free.status.Waiting? && |free.rest| > max
  }

  lemma OverAfterDrain<M(!new)>(read: Frame -> Result<M>, max: nat, a: Bytes, b: Bytes)
    requires Drain(read, None, a).status.Waiting?
    ensures Over(read, max, a + b) <==> Over(read, max, Drain(read, None, a).rest + b)
  {
    hide Drain;
    DrainAppend(read, None, a, b);
  }

  lemma NotOverAfterFailure<M(!new)>(read: Frame -> Result<M>, max: nat, a: Bytes, b: Bytes)
    requires !Drain(read, None, a).status.Waiting?
    ensures !Over(read, max, a + b)
  {
    hide Drain, StripEol;
    DrainAppend(read, None, a, b);
    DrainBounded(read, max, a);
  }

  /** Some prefix of the reads leaves an unbounded reader waiting on more than the bound. */
  ghost predicate OverAtSomeRead<M(!new)>(read: Frame -> Result<M>, max: nat, buffer: Bytes, chunks: seq<Bytes>)
  {
    exists k :: 0 < k <= |chunks| && Over(read, max, buffer + Flatten(chunks[..k]))
  }

  lemma FlattenOne(chunks: seq<Bytes>)
    requires chunks != []
    ensures Flatten(chunks[..1]) == chunks[0]
  {
    assert chunks[..1][1..] == [];
  }

  lemma FirstReadOnly(buffer: Bytes, chunks: seq<Bytes>, k: nat)
    requires 0 < k <= |chunks|
    ensures buffer + Flatten(chunks[..k]) == (buffer + chunks[0]) + Flatten(chunks[1..][..k - 1])
  {
    assert chunks[..k][1..] == chunks[1..][..k - 1];
    Regroup(buffer, chunks[0], Flatten(chunks[1..][..k - 1]));
  }

  lemma NotOver<M(!new)>(read: Frame -> Result<M>, max: nat, s: Bytes)
    requires |Drain(read, None, s).rest| <= max
    ensures !Over(read, max, s)
  {
    hide Drain;
  }

  lemma OverLater<M(!new)>(read: Frame -> Result<M>, max: nat, buffer: Bytes, chunks: seq<Bytes>)
    requires chunks != []
    requires Drain(read, None, buffer + chunks[0]).status.Waiting?
    requires |Drain(read, None, buffer + chunks[0]).rest| <= max
    ensures OverAtSomeRead(read, max, buffer, chunks) <==>
            OverAtSomeRead(read, max, Drain(read, None, buffer + chunks[0]).rest, chunks[1..])
  {
    hide Drain, Over;
    var first := buffer + chunks[0];
    var rest := Drain(read, None, first).rest;
    FlattenOne(chunks);
    NotOver(read, max, first);
    if k :| 0 < k <= |chunks| && Over(read, max, buffer + Flatten(chunks[..k])) {
      assert k != 1;
      FirstReadOnly(buffer, chunks, k);
      OverAfterDrain(read, max, first, Flatten(chunks[1..][..k - 1]));
      assert Over(read, max, rest + Flatten(chunks[1..][..k - 1]));
    }
    if j :| 0 < j <= |chunks[1..]| && Over(read, max, rest + Flatten(chunks[1..][..j])) {
      FirstReadOnly(buffer, chunks, j + 1);
      OverAfterDrain(read, max, first, Flatten(chunks[1..][..j]));
    }
  }

  lemma {:induction false} FeedRefusedIff<M(!new)>(
    read: Frame -> Result<M>, max: nat, buffer: Bytes, chunks: seq<Bytes>
  )
    ensures Feed(read, Some(max), buffer, chunks).status.TooLarge? <==> OverAtSomeRead(read, max, buffer, chunks)
    decreases |chunks|
  {
    hide Drain;
    if chunks != [] {
      var first := buffer + chunks[0];
      var d := Drain(read, None, first);
      DrainBounded(read, max, first);
      FlattenOne(chunks);
      if !d.status.Waiting? {
        forall k | 0 < k <= |chunks| ensures !Over(read, max, buffer + Flatten(chunks[..k])) {
          FirstReadOnly(buffer, chunks, k);
          NotOverAfterFailure(read, max, first, Flatten(chunks[1..][..k - 1]));
        }
      } else if |d.rest| > max {
        assert Over(read, max, buffer + Flatten(chunks[..1]));
      } else {
        FeedRefusedIff(read, max, d.rest, chunks[1..]);
        OverLater(read, max, buffer, chunks);
      }
    }
  }

  /** A stream is refused for size exactly when some read leaves more than the bound of an unfinished frame. */
  lemma {:induction false} RefusedIff<M(!new)>(read: Frame -> Result<M>, max: nat, chunks: seq<Bytes>)
    ensures Feed(read, Some(max), [], chunks).status.TooLarge? <==>
            exists k :: 0 < k <= |chunks| && Over(read, max, Flatten(chunks[..k]))
  {
    hide Feed, Over;
    FeedRefusedIff(read, max, [], chunks);
    assert forall k :: 0 < k <= |chunks| ==> [] + Flatten(chunks[..k]) == Flatten(chunks[..k]);
  }

  ghost predicate AllFit<M(!new)>(items: seq<Item<M>>, max: nat)
  {
    forall i :: 0 <= i < |items| ==> items[i].size <= max
  }

  /** An unfinished frame is shorter than the frame it grows into. */
  lemma ResidueBelowFrame<M(!new)>(read: Frame -> Result<M>, max: nat, r: Bytes, q: Bytes)
    requires Drain(read, None, r) == Drained([], Waiting, r)
    requires Drain(read, None, r + q).status.Waiting? && Drain(read, None, r + q).rest == []
    requires AllFit(Drain(read, None, r + q).items, max)
    ensures |r| <= max
  {
    hide FrameCore, StripEol, DecodeStep, Drain, Extends;
    if r != [] {
      WaitingStep(read, r);
      StepWaited(read, None, r);
      FrameCoreExtends(r, q);
      StripAppend(r, q);
      LongerLater(FrameCore(r), FrameCore(r + q), |r|);
      FirstIsLonger(read, r + q, |r|);
    }
  }

  lemma LongerLater(core: Parsed<Frame>, later: Parsed<Frame>, n: nat)
    requires core.Incomplete? && Extends(core, later, n)
    ensures LongerIfDone(later, n)
  {
  }

  lemma WaitingStep<M>(read: Frame -> Result<M>, r: Bytes)
    requires Drain(read, None, r) == Drained([], Waiting, r)
    ensures DecodeStep(read, None, r) == Stop(Waiting, r)
  {
    hide DecodeStep;
  }

  ghost predicate FirstExceeds<M(!new)>(items: seq<Item<M>>, n: nat)
  {
    items != [] && n < items[0].size
  }

  ghost predicate LongerIfDone(core: Parsed<Frame>, n: nat)
  {
    core.Done? ==> n < core.used
  }

  /** A frame that a drain without residue starts with is the first to be read. */
  lemma FirstIsLonger<M(!new)>(read: Frame -> Result<M>, s: Bytes, n: nat)
    requires s != [] && StripEol(s) == s && LongerIfDone(FrameCore(s), n)
    requires Drain(read, None, s).status.Waiting? && Drain(read, None, s).rest == []
    ensures FirstExceeds(Drain(read, None, s).items, n)
  {
    hide FrameCore, StripEol, Drain;
    var step := DecodeStep(read, None, s);
    if step.Stop? {
      DrainStops(read, None, s);
      assert false;
    }
    DrainGets(read, None, s);
  }

  /** A stream that is, or goes on to be, all frames within the bound is never refused, however it is cut. */
  lemma FittingStreamNeverRefused<M(!new)>(read: Frame -> Result<M>, max: nat, chunks: seq<Bytes>, more: Bytes)
    requires var whole := Drain(read, None, Flatten(chunks) + more);
             whole.status.Waiting? && whole.rest == [] && AllFit(whole.items, max)
    ensures !Feed(read, Some(max), [], chunks).status.TooLarge?
  {
    hide Drain, Feed;
    RefusedIff(read, max, chunks);
    forall k | 0 < k <= |chunks| ensures !Over(read, max, Flatten(chunks[..k])) {
      var p, q := Flatten(chunks[..k]), Flatten(chunks[k..]) + more;
      FlattenAppend(chunks[..k], chunks[k..]);
      assert chunks[..k] + chunks[k..] == chunks;
      Regroup(p, Flatten(chunks[k..]), more);
      PrefixFits(read, max, p, q);
    }
  }

  lemma FitsSuffix<M(!new)>(a: seq<Item<M>>, b: seq<Item<M>>, max: nat)
    requires AllFit(a + b, max)
    ensures AllFit(b, max)
  {
    assert forall i :: 0 <= i < |b| ==> b[i] == (a + b)[|a| + i];
  }

  lemma PrefixFits<M(!new)>(read: Frame -> Result<M>, max: nat, p: Bytes, q: Bytes)
    requires var whole := Drain(read, None, p + q);
             whole.status.Waiting? && whole.rest == [] && AllFit(whole.items, max)
    ensures !Over(read, max, p)
  {
    hide Drain, AllFit;
    var d := Drain(read, None, p);
    if d.status.Waiting? {
      DrainAppend(read, None, p, q);
      DrainRestSettled(read, None, p);
      FitsSuffix(d.items, Drain(read, None, d.rest + q).items, max);
      ResidueBelowFrame(read, max, d.rest, q);
    }
  }

  lemma FitsPrepend<M(!new)>(item: Item<M>, items: seq<Item<M>>, small: nat, large: nat)
    requires item.size <= large && small <= large && AllFit(items, small)
    ensures AllFit([item] + items, large)
  {
  }

  lemma {:induction false} DrainSizes<M(!new)>(read: Frame -> Result<M>, bound: Option<nat>, s: Bytes)
    ensures AllFit(Drain(read, bound, s).items, |s|)
    decreases |s|
  {
    var step := DecodeStep(read, bound, s);
    if step.Got? {
      StepSize(read, bound, s);
      DrainSizes(read, bound, step.rest);
      FitsPrepend(step.item, Drain(read, bound, step.rest).items, |step.rest|, |s|);
      hide DecodeStep, AllFit;
    }
  }

  lemma StepSize<M(!new)>(read: Frame -> Result<M>, bound: Option<nat>, s: Bytes)
    requires DecodeStep(read, bound, s).Got?
    ensures DecodeStep(read, bound, s).item.size <= |s|
  {
    hide FrameCore, StripEol;
  }

  /** One read: while waiting the buffer stays within the bound, and no frame exceeds the bound plus that read. */
  lemma {:induction false} ReadKeepsBound<M(!new)>(read: Frame -> Result<M>, max: nat, buffer: Bytes, chunk: Bytes)
    requires |buffer| <= max
    ensures var d := Drain(read, Some(max), buffer + chunk);
            (d.status.Waiting? ==> |d.rest| <= max) && AllFit(d.items, max + |chunk|)
  {
    hide Drain;
    DrainBounded(read, max, buffer + chunk);
    DrainSizes(read, Some(max), buffer + chunk);
  }

  /** The messages of a session, read by read. */
  function Batches<M>(
    read: Frame -> Result<M>, bound: Option<nat>, buffer: Bytes, chunks: seq<Bytes>
  ): seq<seq<Item<M>>>
    decreases |chunks|
  {
    if chunks == [] then []
    else
      var d := Drain(read, bound, buffer + chunks[0]);
      [d.items] + if d.status.Waiting? then Batches(read, bound, d.rest, chunks[1..]) else []
  }

  function Joined<M>(batches: seq<seq<Item<M>>>): seq<Item<M>>
  {
    if batches == [] then [] else batches[0] + Joined(batches[1..])
  }

  /** Every batch fits the bound plus the read that completed it. */
  ghost predicate BatchesFit<M(!new)>(batches: seq<seq<Item<M>>>, max: nat, chunks: seq<Bytes>)
  {
    |batches| <= |chunks| && forall k :: 0 <= k < |batches| ==> AllFit(batches[k], max + |chunks[k]|)
  }

  lemma BatchesFitCons<M(!new)>(first: seq<Item<M>>, more: seq<seq<Item<M>>>, max: nat, chunks: seq<Bytes>)
    requires chunks != [] && AllFit(first, max + |chunks[0]|) && BatchesFit(more, max, chunks[1..])
    ensures BatchesFit([first] + more, max, chunks)
  {
    hide AllFit;
    var all: seq<seq<Item<M>>> := [first] + more;
    forall k: nat | k < |all| ensures AllFit(all[k], max + |chunks[k]|) {
      if k > 0 {
        assert all[k] == more[k - 1] && chunks[1..][k - 1] == chunks[k];
      }
    }
  }

  /**
   * Whole sessions: the buffer of a waiting reader is within the bound, and every frame is within it plus
   * the read that completed the frame.
   */
  lemma {:induction false} FeedKeepsBound<M(!new)>(
    read: Frame -> Result<M>, max: nat, buffer: Bytes, chunks: seq<Bytes>
  )
    requires |buffer| <= max
    ensures var s, batches := Feed(read, Some(max), buffer, chunks), Batches(read, Some(max), buffer, chunks);
            && (s.status.Waiting? ==> |s.buffer| <= max)
            && s.items == Joined(batches)
            && BatchesFit(batches, max, chunks)
    decreases |chunks|
  {
    hide Drain, AllFit, BatchesFit;
    if chunks != [] {
      ReadKeepsBound(read, max, buffer, chunks[0]);
      var d := Drain(read, Some(max), buffer + chunks[0]);
      if d.status.Waiting? {
        FeedKeepsBound(read, max, d.rest, chunks[1..]);
        var more := Batches(read, Some(max), d.rest, chunks[1..]);
        BatchesFitCons(d.items, more, max, chunks);
        assert ([d.items] + more)[1..] == more;
      } else {
        NothingFits<M>(max, chunks[1..]);
        BatchesFitCons(d.items, [], max, chunks);
        assert ([d.items] + [])[1..] == [];
        assert d.items + [] == d.items;
      }
    } else {
      NothingFits<M>(max, chunks);
    }
  }

  lemma NothingFits<M(!new)>(max: nat, chunks: seq<Bytes>)
    ensures BatchesFit<M>([], max, chunks)
  {
  }
}
