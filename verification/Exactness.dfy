/** Exactly which messages make the round trip, in terms a caller can check before sending. */
module Exactness {
  import opened Octets
  import opened Escaping
  import opened Frames
  import opened Grammar
  import opened Messages
  import opened RoundTrip
  import Decimal
  import Utf8

  // The declared length is the same before and after printing

  function LengthFrom(v: Option<Bytes>): Option<U32>
  {
    if v.Some? && Utf8.Valid(v.value) then Decimal.ParseU32(v.value) else None
  }

  lemma {:induction false} LengthIsFound(hs: seq<Header>)
    ensures GetContentLength(hs) == LengthFrom(Find(hs, "content-length"))
  {
    if hs != [] {
      LengthIsFound(hs[1..]);
    }
  }

  lemma NumbersArePlain(v: Bytes)
    requires Decimal.ParseU32(v).Some?
    ensures Plain(v) && Utf8.Valid(v) && '\\' !in v
  {
    hide Utf8.Valid, Decimal.ParseU32;
    Decimal.ParsedIsPlain(v);
  }

  /** Text reads as the same number, or as none, whether it is escaped or not. */
  lemma EscapeKeepsNumber(v: Bytes)
    ensures LengthFrom(Some(Escape(v))) == LengthFrom(Some(v))
  {
    hide Escape, Unescape, Utf8.Valid, Decimal.ParseU32, Plain;
    EscapeIdentityIffPlain(v);
    EscapeIsWellEscaped(v);
    Utf8.EscapeKeepsValidity(v);
    UnescapeEscape(v);
    if Decimal.ParseU32(v).Some? {
      NumbersArePlain(v);
    }
    if Decimal.ParseU32(Escape(v)).Some? {
      NumbersArePlain(Escape(v));
      UnescapeWithoutBackslash(Escape(v));
    }
  }

  lemma LengthKeyPlain()
    ensures Plain("content-length")
  {
  }

  lemma LengthOnWire(escape: bool, hs: seq<Header>)
    ensures GetContentLength(WireHeaders(escape, hs)) == GetContentLength(hs)
  {
    hide Find, GetContentLength, WireHeaders, LengthFrom, Escape, Plain;
    LengthIsFound(hs);
    LengthIsFound(WireHeaders(escape, hs));
    LengthKeyPlain();
    FindWire(escape, hs, "content-length");
    if Find(hs, "content-length").Some? {
      EscapeKeepsNumber(Find(hs, "content-length").value);
    }
  }

  // Which frames can be printed

  ghost predicate NamedHeaders(hs: seq<Header>)
  {
    forall i :: 0 <= i < |hs| ==> hs[i].key != []
  }

  ghost predicate BodyDelimited(f: Frame)
  {
    BodyOk(GetContentLength(f.headers), ReportedBody(GetContentLength(f.headers), BodyBytes(f.body)))
  }

  lemma EscapedHeaderOk(h: Header)
    ensures HeaderOk(WireHeader(true, h)) <==> h.key != []
  {
    EscapeBreaksNoLine(h.key);
    EscapeBreaksNoLine(h.value);
    var w := WireHeader(true, h);
    assert h.key == [] ==> Escape(h.key) == [];
    hide Escape;
    assert forall i :: 0 <= i < |w.key| ==> !BreaksLine(w.key[i]);
    assert forall i :: 0 <= i < |w.value| ==> !BreaksLine(w.value[i]);
  }

  /** In a frame with escaped headers, only empty keys and a badly delimited body cannot be printed readably. */
  lemma EscapedFrameOkIff(f: Frame)
    requires HeadersAreEscaped(f.command) && CommandOk(f.command)
    ensures WireOk(Wire(f)) <==> NamedHeaders(f.headers) && BodyDelimited(f)
  {
    hide HeadersAreEscaped, GetContentLength, BodyOk, HeaderOk, WireHeader, CommandOk;
    var ws := WireHeaders(true, f.headers);
    LengthOnWire(true, f.headers);
    forall i | 0 <= i < |ws| ensures HeaderOk(ws[i]) <==> f.headers[i].key != [] {
      EscapedHeaderOk(f.headers[i]);
    }
    if HeadersOk(ws) {
      assert forall i :: 0 <= i < |f.headers| ==> HeaderOk(ws[i]);
    }
  }

  /** In a CONNECT nothing is escaped, so keys and values must not contain line breaks, nor keys a colon. */
  lemma ConnectFrameOkIff(f: Frame)
    requires !HeadersAreEscaped(f.command) && CommandOk(f.command)
    ensures WireOk(Wire(f)) <==> HeadersOk(f.headers) && BodyDelimited(f)
  {
    hide HeadersAreEscaped, GetContentLength, BodyOk, HeaderOk, CommandOk;
    LengthOnWire(false, f.headers);
    var ws := WireHeaders(false, f.headers);
    assert ws == f.headers;
  }

  lemma CommandsOk(c: ToServer)
    ensures CommandOk(CommandOf(c))
  {
  }

  /** The conditions a message's headers have to meet, by whether its frame escapes them. */
  ghost predicate PrintableHeaders(m: Message<ToServer>)
  {
    if m.content.Connect? then HeadersOk(HeadersOf(m)) else NamedHeaders(HeadersOf(m))
  }

  /** A message of any variant is deliverable exactly when its headers are printable and its body is delimited. */
  lemma DeliverableIff(m: Message<ToServer>)
    ensures Deliverable(m) <==> PrintableHeaders(m) && BodyDelimited(ToFrame(m))
  {
    hide HeadersOf, WireOk, Wire, HeadersAreEscaped, CommandOk, NamedHeaders, HeadersOk, BodyDelimited;
    hide CommandOf;
    KindOfCommand(m.content);
    CommandsOk(m.content);
    if m.content.Connect? {
      ConnectFrameOkIff(ToFrame(m));
    } else {
      EscapedFrameOkIff(ToFrame(m));
    }
  }

  // The declared length of a SEND

  lemma {:induction false} FindAbsent(hs: seq<Header>, key: Bytes)
    requires forall i :: 0 <= i < |hs| ==> hs[i].key != key
    ensures Find(hs, key) == None
  {
    if hs != [] {
      FindAbsent(hs[1..], key);
    }
  }

  lemma {:induction false} FindAppend(a: seq<Header>, b: seq<Header>, key: Bytes)
    ensures Find(a + b, key) == if Find(a, key).Some? then Find(a, key) else Find(b, key)
  {
    if a == [] {
      assert a + b == b;
    } else {
      assert (a + b)[1..] == a[1..] + b;
      FindAppend(a[1..], b, key);
    }
  }

  lemma {:induction false} PresentAppend(a: seq<Field>, b: seq<Field>)
    ensures Present(a + b) == Present(a) + Present(b)
  {
    hide HeaderIfSome;
    if a == [] {
      assert a + b == b;
    } else {
      assert (a + b)[1..] == a[1..] + b;
      PresentAppend(a[1..], b);
      var first, x, y := HeaderIfSome(a[0]), Present(a[1..]), Present(b);
      assert (first + x) + y == first + (x + y);
    }
  }

  lemma {:induction false} PresentCustom(hs: seq<Header>)
    ensures Present(CustomFields(hs)) == hs
  {
    if hs != [] {
      assert CustomFields(hs)[1..] == CustomFields(hs[1..]);
      PresentCustom(hs[1..]);
      assert hs == [hs[0]] + hs[1..];
    }
  }

  function CustomOf(c: ToServer): seq<Header>
    requires c.Send?
  {
    if c.headers.Some? then c.headers.value else []
  }

  /** The length header `to_frame` adds to a SEND, if any. */
  function AddedLength(c: ToServer): seq<Header>
    requires c.Send?
  {
    Present(LengthField(SendBase(c.destination, c.within) + CustomFields(CustomOf(c)), c.body))
  }

  /** The printing order of a SEND's headers: typed, custom, added length. */
  lemma SendHeaderOrder(c: ToServer)
    requires c.Send?
    ensures Present(FieldsOf(c)) == Present(SendBase(c.destination, c.within)) + (CustomOf(c) + AddedLength(c))
  {
    var base, custom := SendBase(c.destination, c.within), CustomFields(CustomOf(c));
    PresentAppend(base + custom, LengthField(base + custom, c.body));
    PresentAppend(base, custom);
    PresentCustom(CustomOf(c));
    hide Present, LengthField;
  }

  lemma BaseHasNoLength(destination: Bytes, within: Option<Bytes>)
    ensures Find(Present(SendBase(destination, within)), "content-length") == None
    ensures !HasKey(SendBase(destination, within), "content-length")
  {
    var base := SendBase(destination, within);
    assert base[1..] == [Field("transaction", within)] && base[1..][1..] == [];
    assert Present(base[1..]) == HeaderIfSome(base[1]) + Present([]);
    var hs := HeaderIfSome(base[0]) + HeaderIfSome(base[1]);
    assert Present(base) == hs;
    assert forall i :: 0 <= i < |hs| ==> hs[i].key == "destination" || hs[i].key == "transaction";
    FindAbsent(hs, "content-length");
  }

  lemma {:induction false} FindIff(hs: seq<Header>, key: Bytes)
    ensures Find(hs, key).Some? <==> KeyIn(hs, key)
  {
    if hs != [] {
      FindIff(hs[1..], key);
      if KeyIn(hs[1..], key) {
        var i :| 0 <= i < |hs[1..]| && hs[1..][i].key == key;
        assert hs[i + 1].key == key;
      }
    }
  }

  /** Extra headers with a key that is not there yet are found as the caller gave them. */
  lemma {:induction false} FindFresh(existing: seq<Header>, extra: seq<Header>, key: Bytes)
    requires !KeyIn(existing, key)
    ensures Find(Fresh(existing, extra), key) == Find(extra, key)
  {
    hide KeyIn;
    if extra != [] {
      FindFresh(existing, extra[1..], key);
      var rest := Fresh(existing, extra[1..]);
      assert ([extra[0]] + rest)[1..] == rest && [] + rest == rest;
    }
  }

  /** Looking a key up in a message's headers: its own ones first, then the extra ones. */
  lemma FindInMessage(m: Message<ToServer>, key: Bytes)
    ensures var own := Find(Present(FieldsOf(m.content)), key);
            Find(HeadersOf(m), key) == if own.Some? then own else Find(m.extraHeaders, key)
  {
    hide Find, Present, FieldsOf, Fresh, KeyIn;
    var own := Present(FieldsOf(m.content));
    FindAppend(own, Fresh(own, m.extraHeaders), key);
    FindIff(own, key);
    if Find(own, key).None? {
      FindFresh(own, m.extraHeaders, key);
    }
  }

  /** The length a reader takes from a SEND: a custom header's, else the added one's, else an extra header's. */
  function DeclaredLength(m: Message<ToServer>): Option<U32>
    requires m.content.Send?
  {
    var custom, body := Find(CustomOf(m.content), "content-length"), BodyBytes(m.content.body);
    if custom.Some? then LengthFrom(custom)
    else if '\0' in body then if |body| < Decimal.U32_LIMIT then Some(|body|) else None
    else LengthFrom(Find(m.extraHeaders, "content-length"))
  }

  lemma SendLength(m: Message<ToServer>)
    requires m.content.Send?
    ensures GetContentLength(HeadersOf(m)) == DeclaredLength(m)
  {
    hide Present, GetContentLength, FieldsOf, AddedLength, LengthFrom, SendBase, CustomOf, Find, HeadersOf;
    var c := m.content;
    var base, added := Present(SendBase(c.destination, c.within)), AddedLength(c);
    LengthIsFound(HeadersOf(m));
    FindInMessage(m, "content-length");
    SendHeaderOrder(c);
    BaseHasNoLength(c.destination, c.within);
    FindAppend(base, CustomOf(c) + added, "content-length");
    FindAppend(CustomOf(c), added, "content-length");
    if Find(CustomOf(c), "content-length").None? {
      LengthAdded(c);
    }
  }

  lemma NoLengthField(c: ToServer)
    requires c.Send? && Find(CustomOf(c), "content-length").None?
    ensures !HasKey(SendBase(c.destination, c.within) + CustomFields(CustomOf(c)), "content-length")
  {
    hide Find, SendBase;
    var base, custom := SendBase(c.destination, c.within), CustomFields(CustomOf(c));
    BaseHasNoLength(c.destination, c.within);
    FindIff(CustomOf(c), "content-length");
    var all: seq<Field> := base + custom;
    forall i: int | 0 <= i < |all| ensures all[i].key != "content-length" {
      if i >= |base| {
        assert all[i] == custom[i - |base|];
      }
    }
  }

  lemma AddedLengthIs(c: ToServer)
    requires c.Send? && Find(CustomOf(c), "content-length").None?
    ensures AddedLength(c) ==
            if '\0' in BodyBytes(c.body) then [Header("content-length", Decimal.Print(|BodyBytes(c.body)|))] else []
  {
    hide Decimal.Print, SendBase, CustomFields, Find, HasKey;
    NoLengthField(c);
    var fields := LengthField(SendBase(c.destination, c.within) + CustomFields(CustomOf(c)), c.body);
    if fields != [] {
      assert fields[1..] == [];
      assert Present(fields) == HeaderIfSome(fields[0]) + Present([]);
    }
  }

  lemma LengthAdded(c: ToServer)
    requires c.Send? && Find(CustomOf(c), "content-length").None?
    ensures Find(AddedLength(c), "content-length").Some? <==> '\0' in BodyBytes(c.body)
    ensures LengthFrom(Find(AddedLength(c), "content-length")) ==
            var body := BodyBytes(c.body);
            if '\0' in body && |body| < Decimal.U32_LIMIT then Some(|body|) else None
  {
    hide Decimal.Print, Decimal.ParseU32, AddedLength, Utf8.Valid;
    var n := |BodyBytes(c.body)|;
    AddedLengthIs(c);
    Decimal.ParsePrint(n);
    if Decimal.ParseU32(Decimal.Print(n)).Some? {
      Decimal.ParsedIsPlain(Decimal.Print(n));
    }
  }

  lemma NulFreeIff(b: Bytes)
    ensures NulFree(b) <==> '\0' !in b
  {
  }

  /**
   * A SEND with any custom and extra headers is deliverable exactly when none of them has an empty key and
   * its body has the length a reader takes from them, or contains no NUL if they give none.
   */
  lemma {:induction false} SendDeliverableIff(m: Message<ToServer>)
    requires m.content.Send?
    ensures Deliverable(m) <==>
            && NamedHeaders(HeadersOf(m))
            && var body := BodyBytes(m.content.body);
               match DeclaredLength(m)
               case None => '\0' !in body
               case Some(n) => |body| == n
  {
    hide HeadersOf, GetContentLength, Deliverable, NamedHeaders, NulFree, DeclaredLength;
    DeliverableIff(m);
    SendLength(m);
    NulFreeIff(BodyBytes(m.content.body));
  }

  /** A body that cannot be read back: its printed length is beyond 32 bits, and its first NUL ends it. */
  lemma HugeBodyUndeliverable(m: Message<ToServer>)
    requires m == Message(Send("d", None, None, Some(seq(Decimal.U32_LIMIT, _ => '\0'))), [])
    ensures !Deliverable(m)
  {
    hide HeadersOf, Deliverable, NamedHeaders;
    SendDeliverableIff(m);
    assert m.content.body.value[0] == '\0';
  }

  // Which caller-supplied headers shadow an absent field

  lemma {:induction false} FindPresentAbsent(fields: seq<Field>, key: Bytes)
    requires forall j :: 0 <= j < |fields| && fields[j].key == key ==> fields[j].value.None?
    ensures Find(Present(fields), key).None?
  {
    if fields != [] {
      FindPresentAbsent(fields[1..], key);
      var rest := Present(fields[1..]);
      if fields[0].value.Some? {
        assert Present(fields)[1..] == rest;
      } else {
        assert [] + rest == rest;
      }
    }
  }

  /** The headers a caller puts into a message's content. */
  function CallerHeaders(c: ToServer): seq<Header>
  {
    if c.Send? then CustomOf(c) else []
  }

  lemma AddedLengthKey(c: ToServer, key: Bytes)
    requires c.Send? && key != "content-length"
    ensures Find(AddedLength(c), key).None?
  {
    hide SendBase, CustomFields, HasKey, Decimal.Print;
    FindPresentAbsent(LengthField(SendBase(c.destination, c.within) + CustomFields(CustomOf(c)), c.body), key);
  }

  lemma AbsentField(c: ToServer, i: nat)
    requires i < |TypedFields(c)| && TypedFields(c)[i].value.None?
    ensures Find(Present(TypedFields(c)), TypedFields(c)[i].key).None?
  {
    hide TypedFields, Present;
    var fields := TypedFields(c);
    forall j | 0 <= j < |fields| && fields[j].key == fields[i].key ensures fields[j].value.None? {
      if j < i {
        TypedKeysDistinct(c, i, j);
      } else if i < j {
        TypedKeysDistinct(c, j, i);
      }
    }
    FindPresentAbsent(fields, fields[i].key);
  }

  lemma NoFieldIsLength(c: ToServer, i: nat)
    requires i < |TypedFields(c)|
    ensures TypedFields(c)[i].key != "content-length"
  {
  }

  lemma FindOwn(c: ToServer, i: nat)
    requires i < |TypedFields(c)| && TypedFields(c)[i].value.None?
    ensures var key := TypedFields(c)[i].key;
            Find(Present(FieldsOf(c)), key) == Find(CallerHeaders(c), key)
  {
    var key := TypedFields(c)[i].key;
    AbsentField(c, i);
    NoFieldIsLength(c, i);
    if c.Send? {
      SendHeaderOrder(c);
      AddedLengthKey(c, key);
      hide Find, Present, FieldsOf, AddedLength, SendBase, CustomOf;
      var base := Present(SendBase(c.destination, c.within));
      FindAppend(base, CustomOf(c) + AddedLength(c), key);
      FindAppend(CustomOf(c), AddedLength(c), key);
    }
  }

  /** Under the key of an absent field a reader finds what the caller supplied, custom headers before extra ones. */
  lemma FoundForAbsent(m: Message<ToServer>, i: nat)
    requires i < |TypedFields(m.content)| && TypedFields(m.content)[i].value.None?
    ensures var key := TypedFields(m.content)[i].key;
            Find(HeadersOf(m), key) == Find(CallerHeaders(m.content) + m.extraHeaders, key)
  {
    hide TypedFields, FieldsOf, Find, Present, HeadersOf, CallerHeaders;
    var key := TypedFields(m.content)[i].key;
    FindOwn(m.content, i);
    FindInMessage(m, key);
    FindAppend(CallerHeaders(m.content), m.extraHeaders, key);
  }

  /** The first header the caller supplied under the key of an absent field, if any, does not hold text. */
  ghost predicate LeavesFieldsAbsent(m: Message<ToServer>)
  {
    forall i :: 0 <= i < |TypedFields(m.content)| && TypedFields(m.content)[i].value.None? ==>
      FetchRaw(CallerHeaders(m.content) + m.extraHeaders, TypedFields(m.content)[i].key).None?
  }

  /** Whether an absent field is shadowed is decided by the caller's custom and extra headers alone. */
  lemma {:induction false} NoShadowIff(m: Message<ToServer>)
    ensures NoShadow(m) <==> LeavesFieldsAbsent(m)
  {
    forall i: nat | i < |TypedFields(m.content)| && TypedFields(m.content)[i].value.None?
      ensures FetchRaw(HeadersOf(m), TypedFields(m.content)[i].key) ==
              FetchRaw(CallerHeaders(m.content) + m.extraHeaders, TypedFields(m.content)[i].key)
    {
      FoundForAbsent(m, i);
    }
    hide TypedFields, HeadersOf, FetchRaw, CallerHeaders;
  }
}
