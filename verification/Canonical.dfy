/** SEND frames: the explicit normal form, and canonicalisation of frames that others printed. */
module Canonical {
  import opened Octets
  import opened Escaping
  import opened Frames
  import opened Parsing
  import opened Grammar
  import opened Messages
  import opened RoundTrip
  import opened Exactness
  import Decimal
  import Utf8

  lemma BaseIsTyped(destination: Bytes, within: Option<Bytes>)
    ensures Others(Present(SendBase(destination, within)), ExpectedKeys(IsSend)) == []
    ensures NamedHeaders(Present(SendBase(destination, within)))
    ensures within.None? ==> Find(Present(SendBase(destination, within)), "transaction") == None
  {
    var base := SendBase(destination, within);
    assert base[1..] == [Field("transaction", within)] && base[1..][1..] == [];
    assert Present(base[1..]) == HeaderIfSome(base[1]) + Present([]);
    var d := Header("destination", destination);
    if within.Some? {
      var t := Header("transaction", within.value);
      var keys := ExpectedKeys(IsSend);
      assert Present(base) == [d, t];
      assert [d, t][1..] == [t] && [t][1..] == [];
      assert Others([t], keys) == [] + Others([], keys);
      assert Others([d, t], keys) == [] + Others([t], keys);
    } else {
      assert Present(base) == [d];
      assert [d][1..] == [];
    }
  }

  lemma LengthUntyped(c: ToServer)
    requires c.Send?
    ensures NoneIn(AddedLength(c), ExpectedKeys(IsSend))
  {
    hide Decimal.Print, SendBase, HasKey;
    var fields := LengthField(SendBase(c.destination, c.within) + CustomFields(CustomOf(c)), c.body);
    if fields != [] {
      assert fields[1..] == [];
      assert Present(fields) == HeaderIfSome(fields[0]) + Present([]);
    }
  }

  /**
   * A SEND's headers come back as its custom ones, then an added length, then the extras it did not have,
   * in each case without any that repeat the key of a typed field.
   */
  lemma SendNormalForm(m: Message<ToServer>)
    requires m.content.Send?
    ensures var keys := ExpectedKeys(IsSend);
            SendOthers(m) ==
            (Others(CustomOf(m.content), keys) + AddedLength(m.content))
            + Others(Fresh(Present(FieldsOf(m.content)), m.extraHeaders), keys)
  {
    hide Present, FieldsOf, AddedLength, Fresh, NoneIn, SendBase, ExpectedKeys;
    var c, keys := m.content, ExpectedKeys(IsSend);
    var base, own := Present(SendBase(c.destination, c.within)), Present(FieldsOf(c));
    var custom, added, extra := CustomOf(c), AddedLength(c), Fresh(own, m.extraHeaders);
    SendHeaderOrder(c);
    OthersAppend(own, extra, keys);
    OthersAppend(base, custom + added, keys);
    OthersAppend(custom, added, keys);
    BaseIsTyped(c.destination, c.within);
    LengthUntyped(c);
    OthersAll(added, keys);
    var rest := Others(custom, keys) + added;
    assert [] + rest == rest;
  }

  // Frames printed by others

  /** A frame that parses as a SEND and is accepted as the message `m`. */
  ghost predicate AcceptedSend(w: Frame, m: Message<ToServer>)
  {
    && WireOk(w)
    && ClientKindOf(w.command) == Some(IsSend)
    && ToClientMsg(w) == Ok(m)
  }

  lemma {:induction false} TextsOf(hs: seq<Header>)
    requires AllToText(hs).Ok?
    ensures var texts := AllToText(hs).value;
            && |texts| == |hs| && TextHeaders(texts)
            && forall i :: 0 <= i < |hs| ==> texts[i] == Header(hs[i].key, Unescape(hs[i].value))
  {
    if hs != [] {
      hide Unescape, Utf8.Valid;
      TextsOf(hs[1..]);
      var first, rest := HeaderToText(hs[0]).value, AllToText(hs[1..]).value;
      assert AllToText(hs).value == [first] + rest;
      hide AllToText;
    }
  }

  lemma {:induction false} FindTexts(hs: seq<Header>, key: Bytes)
    requires AllToText(hs).Ok?
    ensures Find(AllToText(hs).value, key) ==
            match Find(hs, key)
            case None => None
            case Some(v) => Some(Unescape(v))
  {
    hide Unescape, Utf8.Valid;
    if hs != [] {
      FindTexts(hs[1..], key);
      assert AllToText(hs).value[1..] == AllToText(hs[1..]).value;
    }
  }

  lemma {:induction false} FindOthers(hs: seq<Header>, keys: seq<Bytes>, key: Bytes)
    requires key !in keys
    ensures Find(Others(hs, keys), key) == Find(hs, key)
  {
    if hs != [] {
      FindOthers(hs[1..], keys, key);
      var rest := Others(hs[1..], keys);
      assert ([hs[0]] + rest)[1..] == rest && [] + rest == rest;
    }
  }

  /** The parts of an accepted SEND. */
  lemma Anatomy(w: Frame, m: Message<ToServer>)
    requires AcceptedSend(w, m)
    ensures var rest := Others(w.headers, ExpectedKeys(IsSend));
            && m.content.Send? && m.content.body == w.body
            && m.extraHeaders == rest && AllToText(rest).Ok? && CustomOf(m.content) == AllToText(rest).value
            && Fetch(w.headers, "destination") == Some(m.content.destination)
            && Fetch(w.headers, "transaction") == m.content.within
            && (m.content.headers.Some? ==> m.content.headers.value != [])
  {
    hide Fetch, Others, AllToText, WireOk, ClientKindOf;
  }

  lemma {:induction false} FreshNone(existing: seq<Header>, extra: seq<Header>)
    requires forall i :: 0 <= i < |extra| ==> KeyIn(existing, extra[i].key)
    ensures Fresh(existing, extra) == []
  {
    if extra != [] {
      FreshNone(existing, extra[1..]);
    }
  }

  /** Extra headers that repeat the custom ones add nothing to the frame. */
  lemma NothingFresh(c: ToServer, extra: seq<Header>)
    requires c.Send? && |extra| == |CustomOf(c)|
    requires forall i :: 0 <= i < |extra| ==> extra[i].key == CustomOf(c)[i].key
    ensures Fresh(Present(FieldsOf(c)), extra) == []
  {
    hide FieldsOf, Present, AddedLength, SendBase, Fresh;
    var base, own := Present(SendBase(c.destination, c.within)), Present(FieldsOf(c));
    SendHeaderOrder(c);
    forall i | 0 <= i < |extra| ensures KeyIn(own, extra[i].key) {
      assert own[|base| + i] == CustomOf(c)[i];
    }
    FreshNone(own, extra);
  }

  lemma FoundIsHeld(hs: seq<Header>, key: Bytes)
    requires Find(hs, key).Some?
    ensures exists i :: 0 <= i < |hs| && hs[i].key == key
  {
    if hs[0].key != key {
      FoundIsHeld(hs[1..], key);
      var i :| 0 <= i < |hs[1..]| && hs[1..][i].key == key;
      assert hs[i + 1].key == key;
    }
  }

  /** A body with NULs was read by its declared length, which is among the custom headers already. */
  lemma NoLengthAdded(w: Frame, m: Message<ToServer>)
    requires AcceptedSend(w, m)
    ensures m.content.Send? && AddedLength(m.content) == []
  {
    hide Find, Others, AllToText, GetContentLength, Unescape, Fetch, ToClientMsg, ClientKindOf, HeadersOk, CommandOk;
    Anatomy(w, m);
    var c, rest := m.content, Others(w.headers, ExpectedKeys(IsSend));
    if '\0' in BodyBytes(c.body) {
      NulFreeIff(BodyBytes(c.body));
      LengthIsFound(w.headers);
      FindOthers(w.headers, ExpectedKeys(IsSend), "content-length");
      FindTexts(rest, "content-length");
      FoundIsHeld(CustomOf(c), "content-length");
      HeldIsField(c, "content-length");
    }
  }

  lemma HeldIsField(c: ToServer, key: Bytes)
    requires c.Send? && exists i :: 0 <= i < |CustomOf(c)| && CustomOf(c)[i].key == key
    ensures HasKey(SendBase(c.destination, c.within) + CustomFields(CustomOf(c)), key)
  {
    hide SendBase;
    var base, custom := SendBase(c.destination, c.within), CustomFields(CustomOf(c));
    var i :| 0 <= i < |CustomOf(c)| && CustomOf(c)[i].key == key;
    assert (base + custom)[|base| + i] == custom[i];
  }

  lemma CanonicalHeaders(w: Frame, m: Message<ToServer>)
    requires AcceptedSend(w, m)
    ensures m.content.Send? && Fresh(Present(FieldsOf(m.content)), m.extraHeaders) == []
    ensures HeadersOf(m) == Present(SendBase(m.content.destination, m.content.within)) + CustomOf(m.content)
    ensures SendOthers(m) == CustomOf(m.content)
    ensures NoneIn(CustomOf(m.content), ExpectedKeys(IsSend)) && TextHeaders(CustomOf(m.content))
  {
    Anatomy(w, m);
    hide AcceptedSend, FieldsOf, Present, AddedLength, SendBase, Fresh, Others, AllToText, Fetch, CustomOf;
    hide ExpectedKeys, TextHeaders;
    var c, rest := m.content, Others(w.headers, ExpectedKeys(IsSend));
    TextsOf(rest);
    OthersOf(w.headers, ExpectedKeys(IsSend));
    NothingFresh(c, m.extraHeaders);
    SendHeaderOrder(c);
    NoLengthAdded(w, m);
    var own, custom := Present(FieldsOf(c)), CustomOf(c);
    assert own + [] == own && custom + [] == custom;
    SendNormalForm(m);
    OthersAll(custom, ExpectedKeys(IsSend));
    assert Others([], ExpectedKeys(IsSend)) == [];
  }

  /** Unescaping does not turn text into a number or a number into something else. */
  lemma UnescapeKeepsNumber(v: Bytes)
    ensures LengthFrom(Some(Unescape(v))) == LengthFrom(Some(v))
  {
    hide Unescape, Utf8.Valid, Decimal.ParseU32, Plain;
    Utf8.UnescapeKeepsValidity(v);
    if '\\' in v {
      BackslashLeavesTrace(v);
    } else {
      UnescapeWithoutBackslash(v);
    }
    if Decimal.ParseU32(v).Some? {
      NumbersArePlain(v);
    }
    if Decimal.ParseU32(Unescape(v)).Some? {
      NumbersArePlain(Unescape(v));
    }
  }

  lemma CanonicalLength(w: Frame, m: Message<ToServer>)
    requires AcceptedSend(w, m)
    ensures GetContentLength(HeadersOf(m)) == GetContentLength(w.headers)
  {
    hide AcceptedSend, FieldsOf, Present, AddedLength, SendBase, Fresh, Others, AllToText, Fetch, CustomOf;
    hide TextHeaders, GetContentLength, Find, LengthFrom, HeadersOf, NoneIn, Unescape, SendOthers, HasKey;
    Anatomy(w, m);
    CanonicalHeaders(w, m);
    var c, rest := m.content, Others(w.headers, ExpectedKeys(IsSend));
    LengthIsFound(HeadersOf(m));
    LengthIsFound(w.headers);
    BaseHasNoLength(c.destination, c.within);
    FindAppend(Present(SendBase(c.destination, c.within)), CustomOf(c), "content-length");
    FindOthers(w.headers, ExpectedKeys(IsSend), "content-length");
    FindTexts(rest, "content-length");
    if Find(w.headers, "content-length").Some? {
      UnescapeKeepsNumber(Find(w.headers, "content-length").value);
    }
  }

  /** A key off the wire is non-empty, and only a backslash in it needs escaping. */
  ghost predicate WireKey(key: Bytes)
  {
    key != [] && (Plain(key) <==> '\\' !in key)
  }

  lemma WireKeys(h: Header)
    requires HeaderOk(h)
    ensures WireKey(h.key)
  {
  }

  lemma CanonicalKeys(w: Frame, m: Message<ToServer>)
    requires AcceptedSend(w, m)
    ensures m.content.Send?
    ensures forall i :: 0 <= i < |CustomOf(m.content)| ==> WireKey(CustomOf(m.content)[i].key)
  {
    Anatomy(w, m);
    var rest := Others(w.headers, ExpectedKeys(IsSend));
    TextsOf(rest);
    OthersOf(w.headers, ExpectedKeys(IsSend));
    hide Others, AllToText, Fetch, CustomOf, TextHeaders, BodyOk, ToClientMsg, ClientKindOf, WireKey, HeaderOk;
    forall i | 0 <= i < |rest| ensures WireKey(rest[i].key) {
      var j :| 0 <= j < |w.headers| && w.headers[j] == rest[i];
      WireKeys(w.headers[j]);
    }
    assert forall i :: 0 <= i < |CustomOf(m.content)| ==> CustomOf(m.content)[i].key == rest[i].key;
  }

  lemma CanonicalBody(length: Option<U32>, body: Option<Bytes>)
    requires BodyOk(length, body)
    ensures ReportedBody(length, BodyBytes(body)) == body
  {
  }

  lemma NamedAppend(a: seq<Header>, b: seq<Header>)
    requires NamedHeaders(a) && NamedHeaders(b)
    ensures NamedHeaders(a + b)
  {
  }

  lemma CanonicalNamed(w: Frame, m: Message<ToServer>)
    requires AcceptedSend(w, m)
    ensures NamedHeaders(HeadersOf(m))
  {
    hide AcceptedSend, FieldsOf, Present, SendBase, Fresh, TextHeaders, CustomOf, Plain, HeadersOf, NoneIn;
    hide SendOthers, Find, Others;
    CanonicalHeaders(w, m);
    CanonicalKeys(w, m);
    BaseIsTyped(m.content.destination, m.content.within);
    NamedAppend(Present(SendBase(m.content.destination, m.content.within)), CustomOf(m.content));
  }

  lemma CanonicalDeliverable(w: Frame, m: Message<ToServer>)
    requires AcceptedSend(w, m)
    ensures Deliverable(m) && Wire(ToFrame(m)).body == w.body
  {
    hide Others, AllToText, Fetch, CustomOf, GetContentLength, HeadersOf, ReportedBody, BodyOk, ToClientMsg;
    hide ClientKindOf, HeadersAreEscaped, CommandOk, WireHeaders, HeadersOk, BodyBytes, CommandOf, NamedHeaders;
    hide FieldsOf;
    CanonicalNamed(w, m);
    CanonicalLength(w, m);
    CanonicalBody(GetContentLength(w.headers), w.body);
    Anatomy(w, m);
    KindOfCommand(m.content);
    CommandsOk(m.content);
    LengthOnWire(true, HeadersOf(m));
    EscapedFrameOkIff(ToFrame(m));
  }

  lemma CanonicalWellFormed(w: Frame, m: Message<ToServer>)
    requires AcceptedSend(w, m)
    ensures WellFormed(m)
  {
    hide FieldsOf, Present, Fresh, Others, AllToText, Find, HeadersOf, AcceptedSend, TextHeaders, Utf8.Valid;
    hide SendOthers, CustomOf, Unescape;
    Anatomy(w, m);
    CanonicalHeaders(w, m);
    var c := m.content;
    BaseIsTyped(c.destination, c.within);
    FindAppend(Present(SendBase(c.destination, c.within)), CustomOf(c), "transaction");
    FindAbsent(CustomOf(c), "transaction");
  }

  ghost predicate BackslashFree(hs: seq<Header>)
  {
    forall i :: 0 <= i < |hs| ==> '\\' !in hs[i].key
  }

  /**
   * Canonicalisation: a SEND accepted off the wire, however it was spelled, is re-printed without any
   * duplicated header and is accepted again. It comes back with the same content exactly when no custom key
   * holds a backslash, and prints to identical octets from then on.
   */
  lemma {:induction false} Canonicalisation(w: Frame, m: Message<ToServer>)
    requires AcceptedSend(w, m)
    ensures m.content.Send? && Fresh(Present(FieldsOf(m.content)), m.extraHeaders) == []
    ensures FrameCore(Serialized(ToFrame(m))) == Done(Wire(ToFrame(m)), |Serialized(ToFrame(m))|)
    ensures ToClientMsg(Wire(ToFrame(m))) == Ok(Received(m))
    ensures Received(m).content == m.content <==> BackslashFree(CustomOf(m.content))
    ensures BackslashFree(CustomOf(m.content)) ==> Serialized(ToFrame(Received(m))) == Serialized(ToFrame(m))
  {
    hide AcceptedSend, FieldsOf, Present, Fresh, HeadersOf, Wire, ToFrame, Received, FrameCore, WellFormed;
    hide Serialized;
    hide WireOk, SendOthers, CustomOf, NoneIn, TextHeaders, ToClientMsg, ExpectedKeys, BackslashFree;
    CanonicalHeaders(w, m);
    CanonicalDeliverable(w, m);
    CanonicalWellFormed(w, m);
    SameContentIff(w, m);
    if BackslashFree(CustomOf(m.content)) {
      SameFrame(w, m);
    }
    PrintedBack(m);
  }

  lemma PrintedBack(m: Message<ToServer>)
    requires WellFormed(m) && Deliverable(m)
    ensures FrameCore(Serialized(ToFrame(m))) == Done(Wire(ToFrame(m)), |Serialized(ToFrame(m))|)
    ensures ToClientMsg(Wire(ToFrame(m))) == Ok(Received(m))
  {
    hide FrameCore, Wire, ToFrame, Received, Serialized, ToClientMsg, WireOk, WellFormed;
    SerializedParsesIff(ToFrame(m), []);
    assert Serialized(ToFrame(m)) + [] == Serialized(ToFrame(m));
    ConvertBack(m);
  }

  lemma PlainIffBackslashFree(w: Frame, m: Message<ToServer>)
    requires AcceptedSend(w, m)
    ensures m.content.Send? && (PlainlyKeyed(CustomOf(m.content)) <==> BackslashFree(CustomOf(m.content)))
  {
    hide AcceptedSend, CustomOf, Plain;
    CanonicalKeys(w, m);
  }

  lemma SameContentIff(w: Frame, m: Message<ToServer>)
    requires AcceptedSend(w, m)
    ensures m.content.Send? && (Received(m).content == m.content <==> BackslashFree(CustomOf(m.content)))
  {
    hide AcceptedSend, FieldsOf, Present, Fresh, HeadersOf, Wire, ToFrame, WireOk, SendOthers, NoneIn;
    hide TextHeaders, Others, AllToText, Fetch, EscapedKeys, WireHeaders, CommandOf, PlainlyKeyed;
    hide BackslashFree;
    Anatomy(w, m);
    CanonicalHeaders(w, m);
    PlainIffBackslashFree(w, m);
    CanonicalDeliverable(w, m);
    SameKeysIff(CustomOf(m.content));
  }

  lemma SameFrame(w: Frame, m: Message<ToServer>)
    requires AcceptedSend(w, m) && m.content.Send? && BackslashFree(CustomOf(m.content))
    ensures ToFrame(Received(m)) == ToFrame(m)
  {
    SameContentIff(w, m);
    CanonicalHeaders(w, m);
    CanonicalKeys(w, m);
    KindOfCommand(m.content);
    var custom := CustomOf(m.content);
    forall i | 0 <= i < |custom| ensures WireHeader(true, custom[i]).key == custom[i].key {
      EscapeIdentityIffPlain(custom[i].key);
    }
    hide AcceptedSend, FieldsOf, Present, Fresh, WireHeader, ReceivedContent, SendOthers, NoneIn, TextHeaders, Others;
    hide Plain, CustomOf, HeadersAreEscaped, CommandOf;
    NothingFresh(m.content, Received(m).extraHeaders);
  }

  /** The same for octet strings: whatever text parses as a SEND and is accepted. */
  lemma {:induction false} CanonicalText(s: Bytes, m: Message<ToServer>)
    requires FrameCore(s).Done? && ClientKindOf(FrameCore(s).value.command) == Some(IsSend)
    requires ToClientMsg(FrameCore(s).value) == Ok(m)
    ensures var t := Serialized(ToFrame(m));
            && m.content.Send? && FrameCore(t).Done? && FrameCore(t).used == |t|
            && var again := ToClientMsg(FrameCore(t).value);
               && again.Ok?
               && (again.value.content == m.content <==> BackslashFree(CustomOf(m.content)))
               && (BackslashFree(CustomOf(m.content)) ==> Serialized(ToFrame(again.value)) == t)
  {
    hide FrameCore, ClientKindOf, ToClientMsg, Serialized, ToFrame, Wire, Received, FieldsOf, Present, Fresh, WireOk;
    hide BackslashFree, CustomOf;
    var eols := ParserSound(s);
    Canonicalisation(FrameCore(s).value, m);
  }
}
