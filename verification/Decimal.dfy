/** Decimal numbers in headers: `content-length` and `heart-beat`. */
module Decimal {
  import opened Octets
  import Utf8

  const U32_LIMIT := 0x1_0000_0000

  predicate IsDigit(b: Byte) { '0' <= b <= '9' }

  function DigitValue(b: Byte): (n: nat)
    requires IsDigit(b)
    ensures n < 10
  {
    b as int - '0' as int
  }

  function Digit(n: nat): (b: Byte)
    requires n < 10
    ensures IsDigit(b) && DigitValue(b) == n
  {
    ('0' as int + n) as char
  }

  /** The shortest decimal form, as `to_string` and `format!` print it. */
  function Print(n: nat): Bytes
  {
    if n < 10 then [Digit(n)] else Print(n / 10) + [Digit(n % 10)]
  }

  predicate AllDigits(s: Bytes) { forall i :: 0 <= i < |s| ==> IsDigit(s[i]) }

  function Value(s: Bytes): nat
    requires AllDigits(s)
  {
    if s == [] then 0 else Value(s[..|s| - 1]) * 10 + DigitValue(s[|s| - 1])
  }

  /** `str::parse::<u32>`: an optional plus sign, then digits, within range. */
  function ParseU32(s: Bytes): (n: Option<U32>)
  {
    var digits := if |s| > 1 && s[0] == '+' then s[1..] else s;
    if digits != [] && AllDigits(digits) && Value(digits) < U32_LIMIT
    then Some(Value(digits))
    else None
  }

  lemma {:induction false} PrintIsDigits(n: nat)
    ensures Print(n) != [] && AllDigits(Print(n)) && Value(Print(n)) == n
  {
    if n < 10 {
      assert Print(n)[..0] == [];
    } else {
      PrintIsDigits(n / 10);
      assert Print(n)[..|Print(n)| - 1] == Print(n / 10);
    }
  }

  /** Every number below the 32-bit limit survives being printed and parsed; larger ones are refused. */
  lemma ParsePrint(n: nat)
    ensures ParseU32(Print(n)) == if n < U32_LIMIT then Some(n) else None
  {
    PrintIsDigits(n);
  }

  function Zeros(k: nat): (z: Bytes)
    ensures |z| == k && forall i :: 0 <= i < k ==> z[i] == '0'
  {
    seq(k, _ => '0')
  }

  function Plus(plus: bool): Bytes
  {
    if plus then "+" else ""
  }

  lemma PrintStep(n: nat, d: nat)
    requires d < 10
    ensures Print(d) == [Digit(d)]
    ensures n > 0 ==> Print(n * 10 + d) == Print(n) + [Digit(d)]
  {
    assert n > 0 ==> (n * 10 + d) / 10 == n && (n * 10 + d) % 10 == d;
  }

  lemma ValueStep(s: Bytes)
    requires s != [] && AllDigits(s)
    ensures var init, last := s[..|s| - 1], s[|s| - 1];
            && AllDigits(init) && Value(s) == Value(init) * 10 + DigitValue(last)
            && s == init + [Digit(DigitValue(last))] && (init == [] ==> Value(init) == 0)
  {
  }

  lemma OneMoreZero(k: nat)
    ensures Zeros(k) + "0" == Zeros(k + 1)
  {
  }

  /** A numeral: leading zeros before the shortest form. */
  lemma {:induction false} ZeroPadded(s: Bytes) returns (k: nat)
    requires s != [] && AllDigits(s)
    ensures s == Zeros(k) + Print(Value(s))
  {
    hide Print, Value, AllDigits, Zeros;
    ValueStep(s);
    var init, d := s[..|s| - 1], DigitValue(s[|s| - 1]);
    PrintStep(Value(init), d);
    if init == [] {
      k := 0;
      assert Zeros(0) == [];
    } else {
      k := ZeroPadded(init);
      if Value(init) == 0 {
        PrintStep(0, 0);
        OneMoreZero(k);
        k := k + 1;
      } else {
        Regroup(Zeros(k), Print(Value(init)), [Digit(d)]);
      }
    }
  }

  lemma {:induction false} PaddedValue(k: nat, n: nat)
    ensures AllDigits(Zeros(k) + Print(n)) && Value(Zeros(k) + Print(n)) == n
    decreases n
  {
    PrintIsDigits(n);
    var s := Zeros(k) + Print(n);
    if n < 10 {
      assert s[..|s| - 1] == Zeros(k);
      ZerosValue(k);
    } else {
      PaddedValue(k, n / 10);
      assert s[..|s| - 1] == Zeros(k) + Print(n / 10);
    }
  }

  lemma {:induction false} ZerosValue(k: nat)
    ensures AllDigits(Zeros(k)) && Value(Zeros(k)) == 0
  {
    if k > 0 {
      ZerosValue(k - 1);
      assert Zeros(k)[..k - 1] == Zeros(k - 1);
    }
  }

  /** What is read as a number: an optional plus sign, leading zeros, and the shortest form of a 32-bit number. */
  lemma ParseU32Iff(s: Bytes, n: nat)
    ensures ParseU32(s) == Some(n) <==>
            n < U32_LIMIT && exists plus, k: nat :: s == Plus(plus) + (Zeros(k) + Print(n))
  {
    if ParseU32(s) == Some(n) {
      var plus := |s| > 1 && s[0] == '+';
      var digits := if plus then s[1..] else s;
      var k := ZeroPadded(digits);
      assert s == Plus(plus) + (Zeros(k) + Print(n));
    }
    forall plus, k: nat | n < U32_LIMIT && s == Plus(plus) + (Zeros(k) + Print(n)) ensures ParseU32(s) == Some(n) {
      PaddedValue(k, n);
      PrintIsDigits(n);
      NumeralParses(s, plus, Zeros(k) + Print(n), n);
    }
  }

  lemma NumeralParses(s: Bytes, plus: bool, digits: Bytes, n: nat)
    requires digits != [] && AllDigits(digits) && Value(digits) == n < U32_LIMIT && s == Plus(plus) + digits
    ensures ParseU32(s) == Some(n)
  {
    hide Value;
    if plus {
      assert s[1..] == digits;
    } else {
      assert s == digits && IsDigit(s[0]);
    }
  }

  /** Digits and the plus sign are ASCII, so text that parses is valid UTF-8 and needs no escaping. */
  lemma ParsedIsPlain(s: Bytes)
    requires ParseU32(s).Some?
    ensures forall i :: 0 <= i < |s| ==> IsDigit(s[i]) || s[i] == '+'
    ensures Utf8.Valid(s)
  {
    if |s| > 1 && s[0] == '+' {
      assert forall i :: 0 < i < |s| ==> s[i] == s[1..][i - 1];
    }
    Utf8.AsciiIsValid(s);
  }
}
