/** `ClientCodec`: decoding and encoding on a shared buffer. */
module Codec {
  import opened Octets
  import opened Frames
  import opened Parsing
  import opened Messages
  import opened Decoding

  datatype Decoded = Item(msg: Message<FromServer>) | NeedMore | Failed(status: Status)

  /** What one call returns, from the decoder's step. */
  function Answer(step: Step<Message<FromServer>>): Decoded
  {
    match step
    case Got(item, _) => Decoded.Item(item.msg)
    case Stop(Waiting, _) => NeedMore
    case Stop(status, _) => Failed(status)
  }

  class ClientCodec {
    const maxFrameSize: nat

    constructor (max: nat)
      ensures maxFrameSize == max
    {
      maxFrameSize := max;
    }

    /** Drops the line endings in front of the next frame. */
    method StripHeartbeats(src: BytesMut)
      modifies src
      ensures src.data == StripEol(old(src.data))
    {
      var heartbeats := 0;
      while heartbeats < |src.data| && IsEol(src.data[heartbeats])
        invariant heartbeats <= |src.data|
        invariant forall i :: 0 <= i < heartbeats ==> IsEol(src.data[i])
      {
        heartbeats := heartbeats + 1;
      }
      SpanIs(IsEol, src.data, heartbeats);
      src.Advance(heartbeats);
    }

    method Decode(src: BytesMut) returns (r: Decoded)
      modifies src
      ensures var step := DecodeStep(ToServerMsg, Some(maxFrameSize), old(src.data));
              r == Answer(step) && src.data == step.rest
    {
      hide FrameCore, ToServerMsg;
      StripHeartbeats(src);
      if src.data == [] {
        return NeedMore;
      }
      NoLead(src.data);
      var buf := new Cursor(src.data);
      var parsed := buf.ParseFrame();
      match parsed {
        case Incomplete =>
          if |src.data| > maxFrameSize {
            return Failed(TooLarge);
          }
          return NeedMore;
        case Fail =>
          return Failed(Malformed);
        case Done(frame, len) =>
          var item := ToServerMsg(frame);
          src.Advance(len);
          match item {
            case Ok(msg) => return Decoded.Item(msg);
            case Err(e) => return Failed(Rejected(e));
          }
      }
    }

    /** Decodes until more data is needed or the stream fails. */
    method DrainBuffer(src: BytesMut) returns (messages: seq<Message<FromServer>>, end: Status)
      modifies src
      ensures var d := Drain(ToServerMsg, Some(maxFrameSize), old(src.data));
              messages == MessagesOf(d.items) && end == d.status && src.data == d.rest
    {
      hide DecodeStep;
      ghost var items: seq<Item<Message<FromServer>>> := [];
      messages := [];
      while true
        invariant messages == MessagesOf(items)
        invariant Drain(ToServerMsg, Some(maxFrameSize), old(src.data)) ==
                  Prepend(items, Drain(ToServerMsg, Some(maxFrameSize), src.data))
        decreases |src.data|
      {
        ghost var step := DecodeStep(ToServerMsg, Some(maxFrameSize), src.data);
        var r := Decode(src);
        if r == NeedMore {
          assert items + [] == items;
          return messages, Waiting;
        }
        if r.Failed? {
          assert items + [] == items;
          return messages, r.status;
        }
        ghost var later := Drain(ToServerMsg, Some(maxFrameSize), src.data);
        assert items + ([step.item] + later.items) == (items + [step.item]) + later.items;
        messages := messages + [r.msg];
        items := items + [step.item];
      }
    }

    /** The frame of a message, with `hdr` and the extra headers built by pushes. */
    method BuildFrame(item: Message<ToServer>) returns (f: Frame)
      ensures f == ToFrame(item)
    {
      hide Present, Fresh, SendFields, TypedFields;
      var fields := TypedFields(item.content);
      if item.content.Send? {
        var c := item.content;
        fields := BuildSendFields(c.destination, c.within, c.headers, c.body);
      }
      f := Frame(CommandOf(item.content), Present(fields), if item.content.Send? then item.content.body else None);
      f := AddExtraHeaders(f, item.extraHeaders);
    }

    method Encode(item: Message<ToServer>, dst: BytesMut)
      modifies dst
      ensures dst.data == old(dst.data) + Serialized(ToFrame(item))
    {
      var f := BuildFrame(item);
      Serialize(f, dst);
    }

    method EncodeHeartbeat(dst: BytesMut)
      modifies dst
      ensures dst.data == old(dst.data) + "\n"
    {
      dst.PutU8('\n');
    }
  }

  function MessagesOf<M>(items: seq<Item<M>>): (ms: seq<M>)
    ensures |ms| == |items|
    ensures forall i :: 0 <= i < |items| ==> ms[i] == items[i].msg
  {
    seq(|items|, i requires 0 <= i < |items| => items[i].msg)
  }

  /** On a buffer without leading line endings `parse_frame` is the frame proper and its trailing line ending. */
  lemma NoLead(t: Bytes)
    requires t != [] && !IsEol(t[0])
    ensures ParsedFrame(t) == WithTrail(FrameCore(t), t)
  {
    hide FrameCore;
    assert t[0..] == t;
  }
}
