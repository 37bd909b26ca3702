/** UTF-8 validity, as section 4 of RFC 3629 defines it and `String::from_utf8` checks it. */
module Utf8 {
  import opened Octets
  import opened Escaping

  /** What is still owed to complete the character being read. */
  datatype State =
    | Start | Tail1 | Tail2 | Tail3
    | AfterE0 | AfterED | AfterF0 | AfterF4
    | Reject

  predicate In(lo: Byte, b: Byte, hi: Byte) { lo <= b <= hi }

  predicate IsTail(b: Byte) { In('\U{0080}', b, '\U{00BF}') }

  function Next(st: State, b: Byte): State
  {
    match st
    case Start =>
      if b <= '\U{007F}' then Start
      else if In('\U{00C2}', b, '\U{00DF}') then Tail1
      else if b == '\U{00E0}' then AfterE0
      else if b == '\U{00ED}' then AfterED
      else if In('\U{00E1}', b, '\U{00EF}') then Tail2
      else if b == '\U{00F0}' then AfterF0
      else if In('\U{00F1}', b, '\U{00F3}') then Tail3
      else if b == '\U{00F4}' then AfterF4
      else Reject
    case Tail1 => if IsTail(b) then Start else Reject
    case Tail2 => if IsTail(b) then Tail1 else Reject
    case Tail3 => if IsTail(b) then Tail2 else Reject
    case AfterE0 => if In('\U{00A0}', b, '\U{00BF}') then Tail1 else Reject
    case AfterED => if In('\U{0080}', b, '\U{009F}') then Tail1 else Reject
    case AfterF0 => if In('\U{0090}', b, '\U{00BF}') then Tail2 else Reject
    case AfterF4 => if In('\U{0080}', b, '\U{008F}') then Tail2 else Reject
    case Reject => Reject
  }

  function Run(st: State, s: Bytes): State
    decreases |s|
  {
    if s == [] then st else Run(Next(st, s[0]), s[1..])
  }

  predicate Valid(s: Bytes) { Run(Start, s) == Start }

  lemma {:induction false} RunAppend(st: State, a: Bytes, b: Bytes)
    ensures Run(st, a + b) == Run(Run(st, a), b)
    decreases |a|
  {
    if a == [] {
      assert a + b == b;
    } else {
      assert (a + b)[1..] == a[1..] + b;
      RunAppend(Next(st, a[0]), a[1..], b);
    }
  }

  lemma {:induction false} RunReject(s: Bytes)
    ensures Run(Reject, s) == Reject
  {
    if s != [] {
      RunReject(s[1..]);
    }
  }

  /** The grammar of section 4 of RFC 3629: one character per production of UTF8-1 to UTF8-4. */
  predicate IsChar(c: Bytes)
  {
    || (|c| == 1 && c[0] <= '\U{007F}')
    || (|c| == 2 && In('\U{00C2}', c[0], '\U{00DF}') && IsTail(c[1]))
    || (|c| == 3 && IsTail(c[2]) &&
        (|| (c[0] == '\U{00E0}' && In('\U{00A0}', c[1], '\U{00BF}'))
         || (In('\U{00E1}', c[0], '\U{00EC}') && IsTail(c[1]))
         || (c[0] == '\U{00ED}' && In('\U{0080}', c[1], '\U{009F}'))
         || (In('\U{00EE}', c[0], '\U{00EF}') && IsTail(c[1]))))
    || (|c| == 4 && IsTail(c[2]) && IsTail(c[3]) &&
        (|| (c[0] == '\U{00F0}' && In('\U{0090}', c[1], '\U{00BF}'))
         || (In('\U{00F1}', c[0], '\U{00F3}') && IsTail(c[1]))
         || (c[0] == '\U{00F4}' && In('\U{0080}', c[1], '\U{008F}'))))
  }

  /** Length of the character that a valid non-empty string starts with. */
  function CharLength(b: Byte): (n: nat)
    ensures 1 <= n <= 4
  {
    if b < '\U{00C2}' then 1
    else if b < '\U{00E0}' then 2
    else if b < '\U{00F0}' then 3
    else 4
  }

  /** The automaton accepts exactly the strings that split into characters of the grammar. */
  lemma {:induction false} ValidIffGrammar(s: Bytes)
    ensures Valid(s) <==> exists cs: seq<Bytes> :: (forall c <- cs :: IsChar(c)) && Flatten(cs) == s
  {
    if Valid(s) {
      var cs := ValidSplits(s);
      assert forall c <- cs :: IsChar(c);
    }
    forall cs: seq<Bytes> | (forall c <- cs :: IsChar(c)) && Flatten(cs) == s
      ensures Valid(s)
    {
      CharsAreValid(cs);
    }
  }

  lemma {:induction false} CharIsValid(c: Bytes)
    requires IsChar(c)
    ensures Run(Start, c) == Start
  {
    assert Run(Start, c) == Run(Next(Start, c[0]), c[1..]);
    if |c| > 1 {
      assert c[1..][1..] == c[2..];
      assert Run(Next(Start, c[0]), c[1..]) == Run(Next(Next(Start, c[0]), c[1]), c[2..]);
    }
    if |c| > 2 {
      assert c[2..][1..] == c[3..];
      assert Run(Tail1, c[2..]) == Run(Next(Tail1, c[2]), c[3..]);
      assert Run(Tail2, c[2..]) == Run(Next(Tail2, c[2]), c[3..]);
    }
    if |c| > 3 {
      assert Run(Tail1, c[3..]) == Run(Next(Tail1, c[3]), c[3..][1..]);
    }
  }

  lemma {:induction false} CharsAreValid(cs: seq<Bytes>)
    requires forall c <- cs :: IsChar(c)
    ensures Valid(Flatten(cs))
  {
    if cs != [] {
      CharIsValid(cs[0]);
      CharsAreValid(cs[1..]);
      RunAppend(Start, cs[0], Flatten(cs[1..]));
    }
  }

  lemma {:induction false} FirstChar(s: Bytes) returns (n: nat)
    requires s != [] && Valid(s)
    ensures 0 < n <= |s| && IsChar(s[..n]) && Valid(s[n..])
  {
    n := CharLength(s[0]);
    var a := Next(Start, s[0]);
    assert Run(Start, s) == Run(a, s[1..]);
    if a == Reject || (a != Start && |s| == 1) {
      RunReject(s[1..]);
      assert false;
    }
    if n >= 2 {
      assert s[1..][1..] == s[2..];
      assert Run(a, s[1..]) == Run(Next(a, s[1]), s[2..]);
      var b := Next(a, s[1]);
      if b == Reject || (b != Start && |s| == 2) {
        RunReject(s[2..]);
        assert false;
      }
      if n >= 3 {
        assert s[2..][1..] == s[3..];
        assert Run(b, s[2..]) == Run(Next(b, s[2]), s[3..]);
        var c := Next(b, s[2]);
        if c == Reject || (c != Start && |s| == 3) {
          RunReject(s[3..]);
          assert false;
        }
        if n >= 4 {
          assert s[3..][1..] == s[4..];
          assert Run(c, s[3..]) == Run(Next(c, s[3]), s[4..]);
          if Next(c, s[3]) == Reject {
            RunReject(s[4..]);
            assert false;
          }
        }
      }
    }
  }

  lemma {:induction false} ValidSplits(s: Bytes) returns (cs: seq<Bytes>)
    requires Valid(s)
    ensures forall c <- cs :: IsChar(c)
    ensures Flatten(cs) == s
    decreases |s|
  {
    if s == [] {
      cs := [];
    } else {
      var n := FirstChar(s);
      var rest := ValidSplits(s[n..]);
      cs := [s[..n]] + rest;
      assert cs[1..] == rest;
      assert s == s[..n] + s[n..];
    }
  }

  lemma {:induction false} AsciiIsValid(s: Bytes)
    requires forall i :: 0 <= i < |s| ==> s[i] <= '\U{007F}'
    ensures Valid(s)
  {
    if s != [] {
      AsciiIsValid(s[1..]);
    }
  }

  /** Text cut in front of an ASCII octet is text. */
  lemma CutIsValid(s: Bytes, n: nat)
    requires Valid(s) && n <= |s| && (n < |s| ==> s[n] <= '\U{007F}')
    ensures Valid(s[..n])
  {
    hide Run;
    assert s == s[..n] + s[n..];
    RunAppend(Start, s[..n], s[n..]);
    if n < |s| {
      AsciiNeedsStart(Run(Start, s[..n]), s[n..]);
    } else {
      assert s[..n] == s;
    }
  }

  lemma AsciiNeedsStart(st: State, s: Bytes)
    requires s != [] && s[0] <= '\U{007F}' && Run(st, s) == Start
    ensures st == Start
  {
    if st != Start {
      RunReject(s[1..]);
      assert false;
    }
  }

  lemma PairKeepsState(st: State, b: Byte)
    ensures Run(st, UnescapePair(b)) == Run(st, ['\\', b])
  {
    var u, w := UnescapePair(b), ['\\', b];
    assert w[1..] == [b];
    assert Run(st, w) == Run(Next(st, '\\'), [b]) == Next(Next(st, '\\'), b);
    if |u| == 1 {
      assert Run(st, u) == Next(st, u[0]);
    }
  }

  /** Unescaping drives the automaton to the state the escaped text would. */
  lemma {:induction false} UnescapeKeepsState(st: State, w: Bytes)
    ensures Run(st, Unescape(w)) == Run(st, w)
    decreases |w|
  {
    if w == [] {
    } else if w[0] == '\\' && |w| > 1 {
      hide UnescapePair, Run;
      var u, rest := UnescapePair(w[1]), w[2..];
      assert w == [w[0], w[1]] + rest;
      RunAppend(st, u, Unescape(rest));
      RunAppend(st, [w[0], w[1]], rest);
      UnescapeKeepsState(Run(st, u), rest);
      PairKeepsState(st, w[1]);
    } else {
      assert Unescape(w)[1..] == Unescape(w[1..]);
      UnescapeKeepsState(Next(st, w[0]), w[1..]);
    }
  }

  /** Unescaping neither creates nor destroys UTF-8 validity. */
  lemma UnescapeKeepsValidity(w: Bytes)
    ensures Valid(Unescape(w)) <==> Valid(w)
  {
    UnescapeKeepsState(Start, w);
  }

  /** Nor does escaping. */
  lemma EscapeKeepsValidity(s: Bytes)
    ensures Valid(Escape(s)) <==> Valid(s)
  {
    UnescapeEscape(s);
    UnescapeKeepsValidity(Escape(s));
  }
}
