/** How verdicts change when more input arrives. */
module Stability {
  import opened Octets
  import opened Frames
  import opened Parsing

  /**
   * A verdict `before` on a buffer of `len` octets and the verdict `later` on a longer one:
   * a settled verdict never changes, and a value that had to wait uses some of the new input.
   */
  ghost predicate Extends<T(!new)>(before: Parsed<T>, later: Parsed<T>, len: nat)
  {
    && (!before.Incomplete? ==> later == before)
    && (before.Incomplete? && later.Done? ==> later.used > len)
  }

  lemma LineEndingExtends(s: Bytes, t: Bytes)
    ensures Extends(LineEnding(s), LineEnding(s + t), |s|)
  {
  }

  lemma ValueLineExtends(s: Bytes, t: Bytes)
    ensures Extends(ValueLine(s), ValueLine(s + t), |s|)
  {
    SpanAppend(IsValueByte, s, t);
    var n := Span(IsValueByte, s);
    if n < |s| {
      Drop(s, t, n);
      LineEndingExtends(s[n..], t);
    }
  }

  lemma CommandLineExtends(s: Bytes, t: Bytes)
    ensures Extends(CommandLine(s), CommandLine(s + t), |s|)
  {
    SpanAppend(IsAlpha, s, t);
    var n := Span(IsAlpha, s);
    if n < |s| {
      Drop(s, t, n);
      LineEndingExtends(s[n..], t);
    }
  }

  /** The verdict on a header whose key does not end at a colon. */
  lemma HeaderWithoutColon(s: Bytes)
    ensures var n := Span(IsKeyByte, s);
            && (n == |s| ==> ParsedHeader(s) == Incomplete)
            && (n < |s| && (n == 0 || s[n] != ':') ==> ParsedHeader(s) == Fail)
  {
    hide ValueLine;
  }

  lemma HeaderExtends(s: Bytes, t: Bytes)
    ensures Extends(ParsedHeader(s), ParsedHeader(s + t), |s|)
  {
    hide ParsedHeader, ValueLine;
    HeaderWithoutColon(s);
    HeaderWithoutColon(s + t);
    if ParsedHeader(s + t).Done? {
      HeaderUsed(s + t);
    }
    SpanAppend(IsKeyByte, s, t);
    var n := Span(IsKeyByte, s);
    if 0 < n < |s| && s[n] == ':' {
      Drop(s, t, n);
      Drop(s, t, n + 1);
      HeaderFromValue(s, n);
      HeaderFromValue(s + t, n);
      ValueLineExtends(s[n + 1..], t);
    }
  }

  lemma HeaderUsed(s: Bytes)
    requires ParsedHeader(s).Done?
    ensures ParsedHeader(s).used > Span(IsKeyByte, s)
  {
    hide ValueLine;
  }

  /** Only the empty buffer can turn into the empty line that ends the block. */
  lemma WaitingHeader(s: Bytes, t: Bytes)
    requires ParsedHeader(s).Incomplete? && LineEnding(s + t).Done?
    ensures s == []
  {
  }

  lemma {:induction false} HeaderBlockExtends(s: Bytes, t: Bytes)
    ensures Extends(HeaderBlock(s), HeaderBlock(s + t), |s|)
    decreases |s|
  {
    hide ParsedHeader, LineEnding;
    HeaderExtends(s, t);
    match ParsedHeader(s)
    case Done(h, n) =>
      Drop(s, t, n);
      HeaderBlockExtends(s[n..], t);
    case Fail =>
      LineEndingExtends(s, t);
    case Incomplete =>
      if LineEnding(s + t).Done? {
        WaitingHeader(s, t);
      }
  }

  lemma BodyEndExtends(length: Option<U32>, s: Bytes, t: Bytes)
    ensures Extends(BodyEnd(length, s), BodyEnd(length, s + t), |s|)
  {
    SpanAppend(NotNul, s, t);
    var body := Body(length, s);
    if body.Done? {
      Drop(s, t, body.used);
    }
  }

  /** The frame proper, from its command to its NUL, is judged once and for all. */
  lemma {:induction false} FrameCoreExtends(s: Bytes, t: Bytes)
    ensures Extends(FrameCore(s), FrameCore(s + t), |s|)
  {
    hide CommandLine, HeaderBlock, BodyEnd, GetContentLength;
    CommandLineExtends(s, t);
    if CommandLine(s).Done? {
      var n := CommandLine(s).used;
      Drop(s, t, n);
      var s1 := s[n..];
      HeaderBlockExtends(s1, t);
      if HeaderBlock(s1).Done? {
        var m := HeaderBlock(s1).used;
        Drop(s1, t, m);
        BodyEndExtends(GetContentLength(HeaderBlock(s1).value), s1[m..], t);
      }
    }
  }
}
