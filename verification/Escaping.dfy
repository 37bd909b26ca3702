/** Header escaping: the printer's `write_escaped` and the reader's `unescape_header_value`. */
module Escaping {
  import opened Octets

  function EscapeByte(b: Byte): Bytes
  {
    if b == '\r' then "\\r"
    else if b == '\n' then "\\n"
    else if b == ':' then "\\c"
    else if b == '\\' then "\\\\"
    else [b]
  }

  function Escape(s: Bytes): Bytes
  {
    if s == [] then [] else EscapeByte(s[0]) + Escape(s[1..])
  }

  /** What an octet after a backslash stands for; undefined sequences are kept as they are. */
  function UnescapePair(b: Byte): Bytes
  {
    if b == 'r' then "\r"
    else if b == 'n' then "\n"
    else if b == 'c' then ":"
    else if b == '\\' then "\\"
    else ['\\', b]
  }

  function Unescape(w: Bytes): Bytes
  {
    if w == [] then []
    else if w[0] == '\\' && |w| > 1 then UnescapePair(w[1]) + Unescape(w[2..])
    else [w[0]] + Unescape(w[1..])
  }

  /** The source's loop over `i` and `result`. */
  method UnescapeHeaderValue(value: Bytes) returns (result: Bytes)
    ensures result == Unescape(value)
  {
    result := [];
    var i := 0;
    while i < |value|
      invariant 0 <= i <= |value|
      invariant result + Unescape(value[i..]) == Unescape(value)
    {
      ghost var before := result;
      if value[i] == '\\' && i + 1 < |value| {
        result := PushPair(result, value[i + 1]);
        assert value[i..][2..] == value[i + 2..];
        i := i + 2;
      } else {
        result := result + [value[i]];
        assert value[i..][1..] == value[i + 1..];
        i := i + 1;
      }
      Regroup(before, result[|before|..], Unescape(value[i..]));
    }
  }

  /** The match on the octet after a backslash. */
  method PushPair(result: Bytes, next: Byte) returns (extended: Bytes)
    ensures extended == result + UnescapePair(next)
  {
    if next == 'r' {
      extended := result + ['\r'];
    } else if next == 'n' {
      extended := result + ['\n'];
    } else if next == 'c' {
      extended := result + [':'];
    } else if next == '\\' {
      extended := result + ['\\'];
    } else {
      extended := result + ['\\'];
      extended := extended + [next];
    }
  }

  lemma {:induction false} EscapeAppend(a: Bytes, b: Bytes)
    ensures Escape(a + b) == Escape(a) + Escape(b)
  {
    if a == [] {
      assert a + b == b;
    } else {
      assert (a + b)[1..] == a[1..] + b;
      EscapeAppend(a[1..], b);
    }
  }

  lemma UnescapeEscaped(b: Byte, w: Bytes)
    ensures Unescape(EscapeByte(b) + w) == [b] + Unescape(w)
  {
    var s := EscapeByte(b) + w;
    DropPrefix(EscapeByte(b), w);
    assert s[0] == EscapeByte(b)[0];
    assert |EscapeByte(b)| == 2 ==> s[1] == EscapeByte(b)[1];
  }

  /** Reading back what was printed gives the original, for every octet string. */
  lemma {:induction false} UnescapeEscape(s: Bytes)
    ensures Unescape(Escape(s)) == s
  {
    if s != [] {
      hide EscapeByte, Unescape;
      UnescapeEscaped(s[0], Escape(s[1..]));
      UnescapeEscape(s[1..]);
      assert s == [s[0]] + s[1..];
    } else {
      assert Unescape([]) == [];
    }
  }

  /** Octets that would break a header line, and so never appear in escaped output. */
  predicate BreaksLine(b: Byte) { b == '\r' || b == '\n' || b == ':' }

  lemma {:induction false} EscapeBreaksNoLine(s: Bytes)
    ensures forall i :: 0 <= i < |Escape(s)| ==> !BreaksLine(Escape(s)[i])
    ensures |Escape(s)| >= |s|
  {
    if s != [] {
      EscapeBreaksNoLine(s[1..]);
    }
  }

  predicate IsPlain(b: Byte) { !BreaksLine(b) && b != '\\' }

  predicate Plain(s: Bytes) { forall i :: 0 <= i < |s| ==> IsPlain(s[i]) }

  /** A string passes through the printer unchanged exactly when nothing in it needs escaping. */
  lemma {:induction false} EscapeIdentityIffPlain(s: Bytes)
    ensures Escape(s) == s <==> Plain(s)
  {
    if s != [] {
      EscapeIdentityIffPlain(s[1..]);
      EscapeBreaksNoLine(s[1..]);
      if IsPlain(s[0]) {
        assert Escape(s)[1..] == Escape(s[1..]);
        assert s == [s[0]] + s[1..];
      }
    }
  }

  /** Wire text the printer could have produced: no raw separators, every backslash starts a defined pair. */
  predicate WellEscaped(w: Bytes)
  {
    w == [] ||
    if w[0] == '\\' then |w| > 1 && EndsSequence(w[1]) && WellEscaped(w[2..])
    else !BreaksLine(w[0]) && WellEscaped(w[1..])
  }

  lemma EscapedStaysWellEscaped(b: Byte, w: Bytes)
    requires WellEscaped(w)
    ensures WellEscaped(EscapeByte(b) + w)
  {
    var s := EscapeByte(b) + w;
    DropPrefix(EscapeByte(b), w);
    assert s[0] == EscapeByte(b)[0];
    assert |EscapeByte(b)| == 2 ==> s[1] == EscapeByte(b)[1];
  }

  lemma {:induction false} EscapeIsWellEscaped(s: Bytes)
    ensures WellEscaped(Escape(s))
  {
    if s != [] {
      EscapeIsWellEscaped(s[1..]);
      EscapedStaysWellEscaped(s[0], Escape(s[1..]));
    }
  }

  /** Printing what was read reproduces the wire text exactly on well-escaped input. */
  lemma {:induction false} EscapeUnescapeIff(w: Bytes)
    ensures Escape(Unescape(w)) == w <==> WellEscaped(w)
  {
    EscapeIsWellEscaped(Unescape(w));
    if WellEscaped(w) {
      WellEscapedSurvives(w);
    }
  }

  lemma {:induction false} WellEscapedSurvives(w: Bytes)
    requires WellEscaped(w)
    ensures Escape(Unescape(w)) == w
  {
    if w == [] {
    } else if w[0] == '\\' {
      WellEscapedSurvives(w[2..]);
      EscapeAppend(UnescapePair(w[1]), Unescape(w[2..]));
      PairSurvives(w[1]);
      assert w == [w[0], w[1]] + w[2..];
    } else {
      WellEscapedSurvives(w[1..]);
      assert Unescape(w)[1..] == Unescape(w[1..]);
      assert w == [w[0]] + w[1..];
    }
  }

  lemma PairSurvives(b: Byte)
    requires EndsSequence(b)
    ensures Escape(UnescapePair(b)) == ['\\', b]
  {
    var u := UnescapePair(b);
    assert u[1..] == [];
    assert Escape(u) == EscapeByte(u[0]) + Escape([]);
  }

  /** Normalising wire text by reading and re-printing it is idempotent. */
  lemma EscapeUnescapeIdempotent(w: Bytes)
    ensures Escape(Unescape(Escape(Unescape(w)))) == Escape(Unescape(w))
  {
    UnescapeEscape(Unescape(w));
  }

  /** Octets that make an escape sequence of a backslash before them. */
  predicate EndsSequence(b: Byte) { b == 'r' || b == 'n' || b == 'c' || b == '\\' }

  predicate HasSequence(w: Bytes)
  {
    exists i :: 0 <= i < |w| - 1 && w[i] == '\\' && EndsSequence(w[i + 1])
  }

  lemma SequenceInRest(w: Bytes, n: nat)
    requires n <= |w| && n <= 2
    requires forall i :: 0 <= i < n ==> w[i] != '\\' || (i + 1 < |w| && !EndsSequence(w[i + 1]))
    ensures HasSequence(w) <==> HasSequence(w[n..])
  {
    if HasSequence(w) {
      var i :| 0 <= i < |w| - 1 && w[i] == '\\' && EndsSequence(w[i + 1]);
      assert i >= n;
      assert w[n..][i - n] == w[i] && w[n..][i - n + 1] == w[i + 1];
    }
    if HasSequence(w[n..]) {
      var i :| 0 <= i < |w[n..]| - 1 && w[n..][i] == '\\' && EndsSequence(w[n..][i + 1]);
      assert w[i + n] == w[n..][i] && w[i + n + 1] == w[n..][i + 1];
    }
  }

  /** Reading shortens text exactly where a defined escape sequence stands, and is the identity elsewhere. */
  lemma {:induction false} UnescapeIdentityIff(w: Bytes)
    ensures Unescape(w) == w <==> !HasSequence(w)
    ensures |Unescape(w)| <= |w| && (HasSequence(w) ==> |Unescape(w)| < |w|)
  {
    if w == [] {
    } else if w[0] == '\\' && |w| > 1 {
      UnescapeIdentityIff(w[2..]);
      assert w == [w[0], w[1]] + w[2..];
      if EndsSequence(w[1]) {
        assert HasSequence(w);
      } else {
        SequenceInRest(w, 2);
      }
    } else {
      UnescapeIdentityIff(w[1..]);
      assert w == [w[0]] + w[1..];
      if |w| > 1 {
        SequenceInRest(w, 1);
      }
    }
  }

  /** Text without a backslash is read as it stands. */
  lemma {:induction false} UnescapeWithoutBackslash(w: Bytes)
    requires '\\' !in w
    ensures Unescape(w) == w
  {
    if w != [] {
      UnescapeWithoutBackslash(w[1..]);
      assert w == [w[0]] + w[1..];
    }
  }

  /** A backslash on the wire leaves some octet that the printer escapes again. */
  lemma {:induction false} BackslashLeavesTrace(w: Bytes)
    requires '\\' in w
    ensures !Plain(Unescape(w))
  {
    if w[0] == '\\' && |w| > 1 {
      var u := UnescapePair(w[1]);
      assert !IsPlain(Unescape(w)[0]);
    } else if w[0] == '\\' {
      assert !IsPlain(Unescape(w)[0]);
    } else {
      assert w == [w[0]] + w[1..];
      BackslashLeavesTrace(w[1..]);
      var i :| 0 <= i < |Unescape(w[1..])| && !IsPlain(Unescape(w[1..])[i]);
      assert !IsPlain(Unescape(w)[i + 1]);
    }
  }
}
