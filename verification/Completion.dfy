/** When the parser waits and when it refuses: it waits exactly as long as some continuation spells a frame. */
module Completion {
  import opened Octets
  import opened Frames
  import opened Parsing
  import opened Stability
  import opened Grammar

  /** Some continuation of `s` begins with a spelling of a frame. */
  ghost predicate CanSpell(s: Bytes)
  {
    exists t: Bytes, w: Frame, n: nat :: WireOk(w) && n <= |s + t| && Spells((s + t)[..n], w)
  }

  // Whatever is waited for can be completed

  lemma CompleteEol(s: Bytes) returns (t: Bytes)
    requires LineEnding(s).Incomplete?
    ensures LineEnding(s + t) == Done((), |s + t|)
  {
    t := "\n";
    assert (s + t)[0] == if s == [] then '\n' else '\r';
  }

  lemma CompleteCommand(s: Bytes) returns (t: Bytes)
    requires CommandLine(s).Incomplete?
    ensures CommandLine(s + t).Done? && CommandLine(s + t).used == |s + t|
  {
    hide LineEnding;
    var n := Span(IsAlpha, s);
    if n < |s| {
      t := CompleteEol(s[n..]);
      Drop(s, t, n);
      SpanAppend(IsAlpha, s, t);
    } else {
      var name: Bytes := if s == [] then "A" else [];
      t := name + "\n";
      CommandRender(s + name, false, []);
      assert ((s + name) + Eol(false)) + [] == s + t;
    }
  }

  lemma CompleteValue(s: Bytes) returns (t: Bytes)
    requires ValueLine(s).Incomplete?
    ensures ValueLine(s + t).Done? && ValueLine(s + t).used == |s + t|
  {
    hide LineEnding;
    var n := Span(IsValueByte, s);
    if n < |s| {
      CutOffEol(s);
      t := "\n";
      Drop(s, t, n);
      SpanAppend(IsValueByte, s, t);
      EndOfLine(s + t, n);
    } else {
      t := "\n";
      ValueLineRender(s, false, []);
      assert (s + Eol(false)) + [] == s + t;
    }
  }

  lemma CutOffEol(s: Bytes)
    requires ValueLine(s).Incomplete? && Span(IsValueByte, s) < |s|
    ensures Span(IsValueByte, s) == |s| - 1 && s[|s| - 1] == '\r'
  {
    var n := Span(IsValueByte, s);
    assert s[n..][0] == s[n];
  }

  lemma EndOfLine(s: Bytes, n: nat)
    requires n + 2 == |s| && Span(IsValueByte, s) == n && s[n] == '\r' && s[n + 1] == '\n'
    ensures ValueLine(s).Done? && ValueLine(s).used == |s|
  {
    assert s[n..] == "\r\n";
  }

  lemma CompleteHeader(s: Bytes) returns (t: Bytes)
    requires ParsedHeader(s).Incomplete? && s != []
    ensures ParsedHeader(s + t).Done? && ParsedHeader(s + t).used == |s + t|
  {
    hide ValueLine, ParsedHeader;
    HeaderWithoutColon(s);
    var n := Span(IsKeyByte, s);
    if n < |s| {
      HeaderFromValue(s, n);
      t := CompleteValue(s[n + 1..]);
      SpanAppend(IsKeyByte, s, t);
      Drop(s, t, n + 1);
      HeaderFromValue(s + t, n);
    } else {
      t := ":\n";
      HeaderRender(Header(s, []), false, []);
      assert RenderHeader(Header(s, []), false) + [] == s + t;
    }
  }

  lemma EmptyLine()
    ensures HeaderBlock("\n") == Done([], 1)
  {
    EmptyBlockRender(false, []);
    assert Eol(false) + [] == "\n";
  }

  lemma BlockOfEol(s: Bytes)
    requires ParsedHeader(s).Fail? && LineEnding(s).Done?
    ensures HeaderBlock(s) == Done([], LineEnding(s).used)
  {
    hide ParsedHeader, LineEnding;
  }

  /** A block that waits is waiting for a header, for its end, or for what follows its first header. */
  lemma BlockWaitsFor(s: Bytes)
    requires HeaderBlock(s).Incomplete?
    ensures var h := ParsedHeader(s);
            || h.Incomplete?
            || (h.Done? && HeaderBlock(s[h.used..]).Incomplete?)
            || (h.Fail? && LineEnding(s).Incomplete?)
  {
    hide ParsedHeader, LineEnding;
  }

  lemma {:induction false} CompleteBlock(s: Bytes) returns (t: Bytes)
    requires HeaderBlock(s).Incomplete?
    ensures HeaderBlock(s + t).Done? && HeaderBlock(s + t).used == |s + t|
    decreases |s|
  {
    hide ParsedHeader, HeaderBlock, LineEnding;
    BlockWaitsFor(s);
    var h := ParsedHeader(s);
    if h.Done? {
      t := CompleteBlock(s[h.used..]);
      HeaderExtends(s, t);
      Drop(s, t, h.used);
      var rest := HeaderBlock((s + t)[h.used..]);
      BlockFromParts(s + t, h.value, h.used, rest.value, rest.used);
    } else if h.Fail? {
      t := CompleteEol(s);
      HeaderExtends(s, t);
      BlockOfEol(s + t);
    } else if s == [] {
      t := "\n";
      EmptyLine();
      assert s + t == "\n";
    } else {
      var line := CompleteHeader(s);
      t := line + "\n";
      var full := s + line;
      Regroup(s, line, "\n");
      HeaderExtends(full, "\n");
      DropPrefix(full, "\n");
      EmptyLine();
      BlockFromParts(full + "\n", ParsedHeader(full).value, |full|, [], 1);
    }
  }

  lemma CompleteBody(length: Option<U32>, s: Bytes) returns (t: Bytes)
    requires BodyEnd(length, s).Incomplete?
    ensures BodyEnd(length, s + t).Done? && BodyEnd(length, s + t).used == |s + t|
  {
    var n := if length.Some? then length.value else |s|;
    if length.None? {
      NulIsMissing(s);
    } else {
      LengthIsMissing(length.value, s);
    }
    var pad: Bytes := seq(n - |s|, _ => '\0');
    t := pad + "\0";
    PaddedBody(length, s + pad);
    Regroup(s, pad, "\0");
  }

  lemma NulIsMissing(s: Bytes)
    requires BodyEnd(None, s).Incomplete?
    ensures NulFree(s)
  {
  }

  lemma LengthIsMissing(n: U32, s: Bytes)
    requires BodyEnd(Some(n), s).Incomplete?
    ensures |s| <= n
  {
  }

  lemma PaddedBody(length: Option<U32>, b: Bytes)
    requires if length.Some? then |b| == length.value else NulFree(b)
    ensures BodyEnd(length, b + "\0").Done? && BodyEnd(length, b + "\0").used == |b + "\0"|
  {
    BodyRender(length, ReportedBody(length, b), []);
    assert RenderBody(ReportedBody(length, b)) + [] == b + "\0";
  }

  /** A frame that waits is waiting for its command line, its headers, or its body. */
  lemma FrameWaitsFor(s: Bytes)
    requires FrameCore(s).Incomplete?
    ensures var line := CommandLine(s);
            || line.Incomplete?
            || (line.Done? && var block := HeaderBlock(s[line.used..]);
                || block.Incomplete?
                || (block.Done? && BodyEnd(GetContentLength(block.value), s[line.used..][block.used..]).Incomplete?))
  {
    hide CommandLine, HeaderBlock, BodyEnd, GetContentLength;
  }

  lemma {:induction false} CompleteAfterBlock(s: Bytes, n: nat, m: nat) returns (t: Bytes)
    requires CommandLine(s).Done? && n == CommandLine(s).used
    requires HeaderBlock(s[n..]).Done? && m == HeaderBlock(s[n..]).used
    requires var end := BodyEnd(GetContentLength(HeaderBlock(s[n..]).value), s[n..][m..]); !end.Fail?
    ensures FrameCore(s + t).Done?
  {
    hide CommandLine, HeaderBlock, BodyEnd, GetContentLength, FrameCore;
    var command, hs, rest := CommandLine(s).value, HeaderBlock(s[n..]).value, s[n..][m..];
    t := [];
    if BodyEnd(GetContentLength(hs), rest).Incomplete? {
      t := CompleteBody(GetContentLength(hs), rest);
    } else {
      assert rest + t == rest;
    }
    CommandLineExtends(s, t);
    Drop(s, t, n);
    HeaderBlockExtends(s[n..], t);
    Drop(s[n..], t, m);
    var end := BodyEnd(GetContentLength(hs), rest + t);
    FrameFromParts(s + t, Frame(command, hs, end.value), n, m, end.used);
  }

  lemma BodyNotRefused(length: Option<U32>)
    ensures !BodyEnd(length, []).Fail?
  {
  }

  /** After headers that are complete but for what `t` adds, nothing is left to refuse. */
  lemma {:induction false} CompleteAfterLine(s: Bytes, n: nat) returns (t: Bytes)
    requires CommandLine(s).Done? && n == CommandLine(s).used && HeaderBlock(s[n..]).Incomplete?
    ensures FrameCore(s + t).Done?
  {
    hide CommandLine, HeaderBlock, BodyEnd, GetContentLength, FrameCore;
    var block := CompleteBlock(s[n..]);
    CommandLineExtends(s, block);
    Drop(s, block, n);
    var all := s + block;
    assert all[n..][HeaderBlock(all[n..]).used..] == [];
    BodyNotRefused(GetContentLength(HeaderBlock(all[n..]).value));
    var more := CompleteAfterBlock(all, n, HeaderBlock(all[n..]).used);
    t := block + more;
    Regroup(s, block, more);
  }

  /** Every buffer that is waited on can become a frame. */
  lemma {:induction false} CompleteFrame(s: Bytes) returns (t: Bytes)
    requires FrameCore(s).Incomplete?
    ensures FrameCore(s + t).Done?
  {
    hide CommandLine, HeaderBlock, BodyEnd, GetContentLength, FrameCore;
    FrameWaitsFor(s);
    if CommandLine(s).Incomplete? {
      var line := CompleteCommand(s);
      var all := s + line;
      assert all[CommandLine(all).used..] == [];
      NothingWaits();
      var more := CompleteAfterLine(all, CommandLine(all).used);
      t := line + more;
      Regroup(s, line, more);
    } else {
      var n := CommandLine(s).used;
      if HeaderBlock(s[n..]).Incomplete? {
        t := CompleteAfterLine(s, n);
      } else {
        t := CompleteAfterBlock(s, n, HeaderBlock(s[n..]).used);
      }
    }
  }

  lemma NothingWaits()
    ensures HeaderBlock([]).Incomplete?
  {
  }

  /** The parser refuses exactly what no continuation can turn into a frame. */
  lemma {:induction false} RefusedIffHopeless(s: Bytes)
    ensures FrameCore(s).Fail? <==> forall t :: !FrameCore(s + t).Done?
  {
    hide FrameCore;
    if FrameCore(s).Incomplete? {
      var t := CompleteFrame(s);
    } else if FrameCore(s).Done? {
      assert FrameCore(s + []).Done? by {
        assert s + [] == s;
      }
    } else {
      forall t ensures !FrameCore(s + t).Done? {
        FrameCoreExtends(s, t);
      }
    }
  }

  lemma SpelledFrame(s: Bytes, t: Bytes)
    requires FrameCore(s + t).Done?
    ensures CanSpell(s)
  {
    hide FrameCore, WireOk, Spells;
    var p := FrameCore(s + t);
    ParserIffGrammar(s + t, p.value, p.used);
  }

  /**
   * The three verdicts in terms of the grammar alone: done when the buffer begins with a spelling, refused
   * when no continuation does, and otherwise waiting.
   */
  lemma {:induction false} VerdictIff(s: Bytes)
    ensures FrameCore(s).Fail? <==> !CanSpell(s)
    ensures FrameCore(s).Done? <==> exists w: Frame, n: nat :: WireOk(w) && n <= |s| && Spells(s[..n], w)
  {
    hide FrameCore, WireOk, Spells;
    RefusedIffHopeless(s);
    if t :| FrameCore(s + t).Done? {
      SpelledFrame(s, t);
    }
    if CanSpell(s) {
      var t: Bytes, w: Frame, n: nat :| WireOk(w) && n <= |s + t| && Spells((s + t)[..n], w);
      ParserIffGrammar(s + t, w, n);
    }
    if FrameCore(s).Done? {
      ParserIffGrammar(s, FrameCore(s).value, FrameCore(s).used);
    }
    if w: Frame, n: nat :| WireOk(w) && n <= |s| && Spells(s[..n], w) {
      ParserIffGrammar(s, w, n);
    }
  }

  // `parse_frame`, with the optional line endings on either side

  /** Nothing, LF or CRLF. */
  ghost predicate OptionalEol(s: Bytes)
  {
    s == [] || s == "\n" || s == "\r\n"
  }

  lemma OptionalEolTaken(eol: Bytes, rest: Bytes)
    requires OptionalEol(eol) && (rest == [] || !IsEol(rest[0]))
    ensures OptLineEnding(eol + rest) == |eol|
  {
  }

  /** One line ending on either side of a frame is taken with it. */
  lemma {:induction false} SurroundingEols(w: Frame, eols: seq<bool>, before: Bytes, after: Bytes, rest: Bytes)
    requires WireOk(w) && |eols| == |w.headers| + 2 && OptionalEol(before) && OptionalEol(after)
    requires rest == [] || !IsEol(rest[0])
    ensures ParsedFrame(before + (Render(w, eols) + (after + rest))) == Done(w, |before| + |Render(w, eols)| + |after|)
  {
    hide FrameCore, OptLineEnding, Spells;
    var text := Render(w, eols);
    RenderStarts(w, eols);
    hide Render, WireOk;
    assert (text + (after + rest))[0] == text[0];
    OptionalEolTaken(before, text + (after + rest));
    DropPrefix(before, text + (after + rest));
    ParserComplete(w, eols, after + rest);
    DropPrefix(text, after + rest);
    OptionalEolTaken(after, rest);
  }

  lemma RenderStarts(w: Frame, eols: seq<bool>)
    requires WireOk(w) && |eols| == |w.headers| + 2
    ensures Render(w, eols) != [] && !IsEol(Render(w, eols)[0])
  {
    assert IsAlpha(w.command[0]);
    assert Render(w, eols)[0] == w.command[0];
  }
}
