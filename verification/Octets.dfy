/** Octets and octet strings, the way the codec sees a socket. */
module Octets {
  /** One octet, written as the character with the same code point. */
  type Byte = c: char | c <= '\U{00FF}'
  type Bytes = seq<Byte>

  type U32 = n: int | 0 <= n < 0x1_0000_0000

  datatype Option<+T> = None | Some(value: T)

  /** What can go wrong when a parsed frame is read as a message. */
  datatype Error =
    | MissingHeader(key: Bytes)
    | NotUtf8
    | BadHeartbeat
    | BadAckMode(mode: Bytes)
    | UnknownFrame(command: Bytes)

  datatype Result<+T> = Ok(value: T) | Err(error: Error)
  {
    predicate IsFailure() { Err? }
    function PropagateFailure<U>(): Result<U>
      requires Err?
    {
      Err(error)
    }
    function Extract(): T
      requires Ok?
    {
      value
    }
  }

  /** A read or write buffer, in the role of `BytesMut`. */
  class BytesMut {
    var data: Bytes

    constructor (initial: Bytes)
      ensures data == initial
    {
      data := initial;
    }

    method PutU8(b: Byte)
      modifies this
      ensures data == old(data) + [b]
    {
      data := data + [b];
    }

    method PutSlice(s: Bytes)
      modifies this
      ensures data == old(data) + s
    {
      data := data + s;
    }

    method Advance(n: nat)
      requires n <= |data|
      modifies this
      ensures data == old(data)[n..]
    {
      data := data[n..];
    }
  }

  predicate IsEol(b: Byte) { b == '\r' || b == '\n' }

  /** Length of the longest prefix whose octets all satisfy `p`. */
  function Span(p: Byte -> bool, s: Bytes): (n: nat)
    ensures n <= |s|
    ensures forall i :: 0 <= i < n ==> p(s[i])
    ensures n < |s| ==> !p(s[n])
  {
    if s == [] || !p(s[0]) then 0 else 1 + Span(p, s[1..])
  }

  /** The postcondition of `Span` determines it. */
  lemma SpanIs(p: Byte -> bool, s: Bytes, n: nat)
    requires n <= |s|
    requires forall i :: 0 <= i < n ==> p(s[i])
    requires n < |s| ==> !p(s[n])
    ensures Span(p, s) == n
  {
    if Span(p, s) < n {
      assert false;
    }
  }

  /** A span that ends inside the buffer is not changed by more input. */
  lemma SpanAppend(p: Byte -> bool, s: Bytes, t: Bytes)
    ensures Span(p, s) < |s| ==> Span(p, s + t) == Span(p, s)
    ensures Span(p, s) == |s| ==> Span(p, s + t) >= |s|
  {
    if Span(p, s) < |s| {
      SpanIs(p, s + t, Span(p, s));
    } else {
      assert forall i :: 0 <= i < |s| ==> p((s + t)[i]);
    }
  }

  lemma Regroup(a: Bytes, b: Bytes, c: Bytes)
    ensures (a + b) + c == a + (b + c)
  {
  }

  lemma DropPrefix(a: Bytes, b: Bytes)
    ensures (a + b)[|a|..] == b
    ensures (a + b)[..|a|] == a
  {
  }

  /** Dropping within the first part of a concatenation. */
  lemma Drop(s: Bytes, t: Bytes, n: nat)
    requires n <= |s|
    ensures (s + t)[n..] == s[n..] + t
    ensures (s + t)[..n] == s[..n]
  {
  }

  lemma DropTwice(s: Bytes, n: nat, m: nat)
    requires n + m <= |s|
    ensures s[n..][m..] == s[n + m..]
  {
  }

  /** Concatenation of a list of octet strings. */
  function Flatten(chunks: seq<Bytes>): Bytes
  {
    if chunks == [] then [] else chunks[0] + Flatten(chunks[1..])
  }

  lemma {:induction false} FlattenAppend(a: seq<Bytes>, b: seq<Bytes>)
    ensures Flatten(a + b) == Flatten(a) + Flatten(b)
  {
    if a == [] {
      assert a + b == b;
    } else {
      assert (a + b)[1..] == a[1..] + b;
      FlattenAppend(a[1..], b);
    }
  }
}
