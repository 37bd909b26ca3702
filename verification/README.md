# A verified model of async-stomp

async-stomp is a STOMP 1.2 client. This project models its three cores and proves what they promise,
separately and joined together:

* **The frame codec.** The printer appends to a buffer, the parsers advance a cursor, `unescape_header_value`
  is a loop, and each is proved equal to a function on octet strings. Beside the parser stands a grammar that
  does not mention it, and the parser accepts exactly that grammar. On top of it are the conversions between typed
  messages and frames, with exact conditions for the round trip.
* **The streaming decoder.** `ClientCodec::decode` works in place on a buffer that arbitrary socket reads fill.
  Its result does not depend on how the stream was cut, except through the size bound, and what the bound
  does is characterised over whole sessions.
* **The write pump, heart-beats and supervision.** The caller's `Pump`, the channel, the oneshot
  acknowledgements and the `write_pump` task form a transition system with a record of the wire. An invariant
  holds in every run, with failures, cancellation and dropped tasks; a clock on top of it gives the
  heart-beat timing. The pump task is also there as a loop, which performs exactly the runs of that system, and both
  ends are there as objects sharing a channel and oneshots, which refine its steps.

`Delivery.EndToEnd` joins the three: in every run of the pump, a peer decoding the wire in whatever reads it
arrives and with any size bound that admits each item has exactly the acknowledged messages in order, and at most
the one item after them.

## Layout

| modules | contents |
|---|---|
| `Octets`, `Escaping`, `Utf8`, `Decimal` | octet strings, header escaping, UTF-8 validity, numbers in headers |
| `Frames`, `Parsing`, `Stability`, `Grammar`, `Completion` | printer, parser, verdicts under more input, the format as a grammar, when the parser waits and when it refuses |
| `Decoding`, `SizeBound`, `Framing`, `Codec` | the decoder over whole streams, its bound, streams of frames, the codec object |
| `Messages`, `Reading`, `RoundTrip`, `Exactness`, `ComingBack`, `Canonical`, `ServerFrames` | typed messages, which frames are accepted as what, round trips and when they hold |
| `PumpProtocol`, `PumpSafety`, `PumpTask` | the write pump as a transition system, what holds of every run, and its loop |
| `PumpHandle`, `PumpSession`, `Delivery` | its two ends as objects that share a channel and oneshots, `send` and `close` over them, and end-to-end delivery |
| `TimedPump`, `Supervision`, `Handshake`, `Disconnecting` | heart-beat timing, silent servers, negotiation, clean shutdown |

`dafny verify dfyconfig.toml` checks everything.

## How the model reads

* An octet is a character up to U+00FF, so that `"CONNECT"` can stand for its octets. Text fields (`String` in the source) are octet
  strings for which `Utf8.Valid` holds.
* A parser on a partial buffer gives `Done(value, used)`, `Incomplete` or `Fail`. The optional line endings around
  a frame treat one that the buffer cuts off as absent, as `complete_err` makes them.
* `Decoding` is stated for any conversion `read` from frames to messages and an optional bound, and so covers the
  client (`ToServerMsg`, bounded) and its peer (`ToClientMsg`).
* A frame built from a message holds logical header values, a parsed one holds them as they stood on the wire;
  `Frames.Wire` maps the first to the second.
* The pump's `State` puts the caller, the channel and the pump task side by side; `Action` lists the caller's polls
  and the pump task's steps, and `Enabled` is the Sink contract and what each step of the pump task waits for. `handed`,
  `replies`, `wire`, `log` and `sent` record the history.
* Times are natural numbers of milliseconds.

## What turned out not to hold as one might expect

* `parse_frame` alone is not stable under more input: on a buffer holding a lone CR its failure is undone by
  what follows. That is the only such buffer (`Decoding.VerdictStableIff`), and `decode` strips it first.
* The size bound depends on how the stream is cut: a frame over the bound is accepted in one read and refused
  when a read ends inside it past the bound (`Framing.RefusalDependsOnCut`). `SizeBound.RefusedIff` says exactly when.
* Header keys are escaped by the printer and never unescaped by the reader, so they survive exactly when nothing
  in them needs escaping (`RoundTrip.EscapedKeysIff`, `RoundTrip.KeyComesBackEscaped`). STOMP 1.2 asks for keys to be decoded as well.
* An undefined escape sequence is kept as it stands, where STOMP 1.2 calls it a fatal error; the model follows the code.
* A custom or extra header can take the place of an optional field that is absent (`ComingBack.ShadowedLogin`); a
  message comes back if and only if none does and the other stated conditions are met (`ComingBack.RoundTripIff`,
  with `Exactness.DeliverableIff` and `Exactness.NoShadowIff` for the conditions). For CONNECT, which is printed
  without escaping, this supposes text under the keys of absent fields: otherwise a value with a line break can be
  read as two headers that are both ignored, and the message comes back although its frame is not in the grammar
  (`ComingBack.BrokenLoginComesBack`).
* A body with NULs of 2^32 octets or more is printed with a length the reader ignores, and cannot be read back
  (`Exactness.SendDeliverableIff`, `Exactness.HugeBodyUndeliverable`).
* A SEND whose custom keys hold a backslash is accepted and printed again, but not with the same content
  (`Canonical.Canonicalisation`).

## Model

| member | source | states |
|---|---|---|
| `Escaping.UnescapeHeaderValue` | src/frame.rs:253-286 | the loop over `i` and `result` computes `Unescape`, the function the laws below are about |
| `Escaping.UnescapeEscape` | src/frame.rs:71-79 | unescaping what was escaped is the identity on every octet string |
| `Escaping.EscapeBreaksNoLine` | src/frame.rs:71-79 | escaped output has no CR, LF or colon, and is no shorter than its input |
| `Escaping.EscapeIdentityIffPlain` | src/frame.rs:71-79 | escaping changes nothing if and only if no octet is CR, LF, colon or backslash |
| `Escaping.EscapeUnescapeIff` | src/frame.rs:253-286 | escaping after unescaping gives the text back if and only if it is well escaped |
| `Escaping.EscapeUnescapeIdempotent` | src/frame.rs:253-286 | reading and re-printing a header value is idempotent |
| `Escaping.UnescapeIdentityIff` | src/frame.rs:264-277 | a value is read as it stands if and only if no backslash in it is followed by `r`, `n`, `c` or a backslash, so undefined escape sequences are kept; otherwise it gets shorter |
| `Utf8.ValidIffGrammar` | src/frame.rs:340-347 | the validity automaton accepts exactly the strings that split into characters of section 4 of RFC 3629 |
| `Utf8.UnescapeKeepsValidity` | src/frame.rs:292-302 | unescaping neither creates nor destroys UTF-8 validity |
| `Utf8.EscapeKeepsValidity` | src/frame.rs:71-79 | nor does escaping |
| `Decimal.ParsePrint` | src/frame.rs:154-163 | a printed number parses back if it is below 2^32 and is refused otherwise |
| `Decimal.ParseU32Iff` | src/frame.rs:154-163 | what is read as a number: an optional plus sign, leading zeros, and the shortest form of a 32-bit number, and nothing else |
| `Frames.WriteEscaped` | src/frame.rs:71-79 | appends the escaped form of one octet, or the octet itself in a CONNECT-family frame |
| `Frames.WriteAllEscaped` | src/frame.rs:104-113 | the loop over the octets of a key or value appends its escaped form |
| `Frames.WriteHeaders` | src/frame.rs:102-115 | the loop over the headers appends one line each, in order |
| `Frames.Serialize` | src/frame.rs:69-126 | appends command, headers, empty line, body and NUL, and leaves what was in the buffer |
| `Parsing.Cursor.ParseHeader` | src/frame.rs:221-232 | the verdict is that of `ParsedHeader`, and on success the cursor has moved by what was used |
| `Parsing.Cursor.RepeatHeaders` | src/frame.rs:185-188 | stops and rewinds at the first header that fails, waits if one is unfinished, and has read exactly the headers before |
| `Parsing.Cursor.ParseHeaderBlock` | src/frame.rs:185-188 | the verdict is that of `HeaderBlock`, and on success the cursor is behind the empty line |
| `Parsing.Cursor.ParseFrame` | src/frame.rs:178-215 | the verdict is that of `ParsedFrame`, and on success the cursor has moved by what was used |
| `Stability.HeaderBlockExtends` | src/frame.rs:221-232 | a settled verdict on a header block never changes, and a block that had to wait uses some of the new input |
| `Stability.FrameCoreExtends` | src/frame.rs:178-215 | the same for a frame from its command to its NUL |
| `Grammar.ParserComplete` | src/frame.rs:178-215 | every spelling of every frame the grammar allows parses back to that frame, whatever follows |
| `Grammar.ParserSound` | src/frame.rs:178-215 | whatever parses is a spelling of the frame it parses to, for some choice of LF or CRLF per line |
| `Grammar.ParserIffGrammar` | src/frame.rs:178-215 | the parser yields a frame using n octets if and only if those octets spell a frame of the grammar |
| `Grammar.RenderUnambiguous` | src/frame.rs:178-215 | one octet string cannot be two spellings: frame and remainder are determined |
| `Grammar.EolInsensitive` | src/frame.rs:178-232 | any mixture of LF and CRLF gives the same frame and consumes all of it |
| `Grammar.SerializedParsesIff` | src/frame.rs:69-126 | a printed frame reads back as its wire form if and only if that form is in the grammar |
| `Grammar.SerializedPrefixWaits` | src/frame.rs:178-215 | a printed frame cut short anywhere is waited for, never refused or misread |
| `Grammar.OctetClasses` | src/frame.rs:178-232 | the octets of commands, keys, values and bodies without a length: letters, no colon or line break, no line break, no NUL |
| `Completion.RefusedIffHopeless` | src/frame.rs:178-215 | the parser refuses a buffer if and only if no continuation of it parses; everything it waits on can be completed |
| `Completion.VerdictIff` | src/frame.rs:178-215 | the three verdicts in terms of the grammar: done if and only if the buffer begins with a spelling, refused if and only if no continuation does |
| `Completion.SurroundingEols` | src/frame.rs:183-208 | one line ending, LF or CRLF, on either side of a frame is taken with it |
| `Decoding.VerdictStableIff` | src/frame.rs:178-232 | settled verdicts of `parse_frame` survive every continuation, up to one trailing line ending, if and only if the buffer is not a lone CR |
| `Decoding.LoneCrUnstable` | src/frame.rs:183-185 | the failing case: a lone CR is refused, and no longer is once LF and a letter follow |
| `Decoding.DrainAppend` | src/client.rs:1229-1269 | draining a longer buffer continues where draining the shorter one waited, and no failure is undone |
| `Decoding.ChunkingInvariance` | src/client.rs:1229-1269 | however a stream is cut into reads, messages, first failure and residue are those of the whole stream, unless the bound was hit |
| `SizeBound.DrainBounded` | src/client.rs:1247-1257 | the bound only turns waiting on too long a residue into a refusal |
| `SizeBound.RefusedIff` | src/client.rs:1247-1257 | a session is refused for size if and only if some read leaves more than the bound of an unfinished frame |
| `SizeBound.FittingStreamNeverRefused` | src/client.rs:1247-1257 | a stream that is, or goes on to be, frames within the bound is never refused under any cut |
| `SizeBound.ReadKeepsBound` | src/client.rs:1247-1257 | after one read a waiting buffer is within the bound and no frame exceeds the bound plus that read |
| `SizeBound.FeedKeepsBound` | src/client.rs:1247-1257 | over whole sessions, a waiting buffer is within the bound, and the messages of each read have frames within the bound plus that very read |
| `Framing.DrainStream` | src/client.rs:1234-1241 | printed frames with any runs of CR and LF between them decode to exactly those frames, and then whatever the tail decodes to |
| `Framing.FramingOfSequences` | src/client.rs:1262-1268 | a stream of printed frames decodes to exactly that list with an empty buffer at the end |
| `Framing.BrokenOffStream` | src/client.rs:1245-1257 | a stream that breaks off inside a frame decodes to the frames before it, and the partial frame stays in the buffer, waiting, or refused if it is over the bound |
| `Framing.RefusalDependsOnCut` | src/client.rs:1247-1257 | every frame over the bound is accepted in one read and refused when a read ends inside it past the bound |
| `Framing.MalformedIff` | src/client.rs:1258 | decoding fails as malformed if and only if no continuation turns the buffer, less leading line endings, into a frame |
| `Framing.RejectedFrame` | src/client.rs:1261-1268 | a frame that is parsed but not accepted ends the drain and is taken: what is left decodes to what follows the frame |
| `Messages.BuildSendFields` | src/frame.rs:647-677 | the pushes onto `hdr` give destination, transaction, custom headers, and a length for a body with NULs unless one was supplied |
| `Messages.AddExtraHeaders` | src/frame.rs:132-145 | appends exactly the extra headers whose key was not there, in order |
| `RoundTrip.FetchWire` | src/frame.rs:292-316 | looking a key up in the printed headers gives the value that was printed |
| `RoundTrip.FirstWins` | src/frame.rs:292-316 | a typed field that is present is what a reader finds, whatever custom and extra headers were added |
| `Reading.FetchAsIff` | src/frame.rs:292-316 | in any frame, a field is read if and only if the first header with its key holds text, and then it is what that stands for |
| `RoundTrip.HeartbeatRoundTrip` | src/frame.rs:579-584 | both 32-bit offers come back from the printed `heart-beat` header |
| `Reading.ParseHeartbeatIff` | src/frame.rs:579-584 | an offer is read if and only if the text is two 32-bit numbers on either side of the first comma |
| `RoundTrip.EscapedKeysIff` | src/frame.rs:329-347 | reading all printed headers gives them back unchanged if and only if they are text and no key needs escaping |
| `RoundTrip.KeyComesBackEscaped` | src/frame.rs:340-347 | a failing input: the key `a:b` comes back with its colon as an escape sequence |
| `RoundTrip.ConvertBack` | src/frame.rs:379-494 | converting the wire form of a well-formed message of any variant gives its normal form |
| `RoundTrip.MessageRoundTrip` | src/frame.rs:591-721 | printing, parsing and converting back gives the normal form and uses exactly the printed octets, whatever follows |
| `Reading.EscapedIff` | src/frame.rs:239-244 | only CONNECT, CONNECTED and STOMP, in capitals or small letters, are exempt from escaping |
| `Reading.ClientKindIff` | src/frame.rs:388-475 | a command is taken for a kind of client message if and only if it is its name in capitals or small letters, or STOMP for CONNECT |
| `Reading.ExpectedKeysIff` | src/frame.rs:388-475 | the keys kept out of the extra headers are exactly those of the message's own fields |
| `Reading.ClientAcceptedIff` | src/frame.rs:379-476 | any frame is accepted if and only if its command is known, each required header is found and holds text, and an ack mode, an offer, or the other headers of a SEND are well formed |
| `Reading.ClientMessageRead` | src/frame.rs:379-494 | what any accepted frame is read as: every field is what stands under its key, with the body, the other headers and the extra ones |
| `Exactness.LengthOnWire` | src/frame.rs:154-163 | the declared body length is the same before and after escaping |
| `Exactness.EscapedFrameOkIff` | src/frame.rs:69-126 | a frame with escaped headers can be read back if and only if no key is empty and its body is delimited |
| `Exactness.ConnectFrameOkIff` | src/frame.rs:239-244 | an unescaped frame can be read back if and only if keys and values have no line break, keys no colon and none is empty, and its body is delimited |
| `Exactness.DeliverableIff` | src/frame.rs:69-126 | a message of any variant is in the grammar once printed if and only if its headers are printable and its body is delimited |
| `Exactness.SendDeliverableIff` | src/frame.rs:666-677 | for any custom and extra headers, a SEND is deliverable if and only if no key is empty and the body has the length that a caller's or the added header declares, or no NUL if none does |
| `Exactness.HugeBodyUndeliverable` | src/frame.rs:154-163 | a failing input: 2^32 NULs, whose printed length the reader ignores |
| `Exactness.FoundForAbsent` | src/frame.rs:132-145 | under the key of an absent field a reader finds the caller's first header with it, custom ones before extra ones |
| `Exactness.NoShadowIff` | src/frame.rs:308-316 | for any custom and extra headers, nothing is shadowed if and only if the caller's first header under the key of each absent field, if there is one, does not hold text |
| `ComingBack.RoundTripIff` | src/lib.rs:369-385 | whatever frame the printed octets parse to, they are used up and read as the message in its normal form if and only if it is deliverable, shadows no absent field, and as a SEND has only text in its other headers |
| `ComingBack.ShadowedLogin` | src/frame.rs:379-406 | a failing input: a CONNECT without login and an extra header `login` |
| `ComingBack.BrokenLoginComesBack` | src/frame.rs:239-244 | the input outside its hypothesis: an unescaped extra `login`, not text and with a line break, is read as two headers and the message comes back although it is not deliverable |
| `Canonical.SendNormalForm` | src/frame.rs:416-424 | the other headers of any SEND come back as the custom ones, then an added length, then the extra ones it did not have, less those with the key of a typed field |
| `Canonical.Canonicalisation` | src/frame.rs:478-493 | a SEND accepted off the wire is re-printed with no duplicated header and is accepted again; its content is the same if and only if no custom key holds a backslash, and then it prints to identical octets from then on |
| `Canonical.CanonicalText` | src/frame.rs:416-424 | the same, from any octets that parse as a SEND and are accepted |
| `ServerFrames.ServerRoundTrip` | src/frame.rs:500-562 | every field of every server message is read off its printed frame, MESSAGE lists all headers, and the further headers become the extra ones in wire form |
| `Reading.ServerKindIff` | src/frame.rs:509-543 | a command is taken for a kind of server message if and only if it is its name in capitals or small letters |
| `Reading.ServerKeysIff` | src/frame.rs:509-543 | the keys kept out of the extra headers are exactly those of the message's own fields |
| `Reading.ServerAcceptedIff` | src/frame.rs:500-544 | any frame is accepted if and only if its command is known, each required header of its kind is found and holds text, and in a MESSAGE all headers are text |
| `Reading.ServerMessageRead` | src/frame.rs:500-562 | what any accepted frame is read as: every field is what stands under its key, with all headers of a MESSAGE, the body and the extra headers |
| `Codec.ClientCodec.StripHeartbeats` | src/client.rs:1234-1238 | the count and advance remove exactly the leading CR and LF octets |
| `Codec.ClientCodec.Decode` | src/client.rs:1229-1269 | the answer and the buffer left behind are those of `DecodeStep`, on every buffer |
| `Codec.ClientCodec.DrainBuffer` | src/client.rs:1229-1269 | calling `decode` until it waits or fails ends, and gives the messages, status and residue of `Drain` |
| `Codec.ClientCodec.BuildFrame` | src/lib.rs:369-375 | the frame built by pushes is `ToFrame` of the message |
| `Codec.ClientCodec.Encode` | src/client.rs:1276-1284 | appends the printed frame of the message and leaves what was in the buffer |
| `Codec.ClientCodec.EncodeHeartbeat` | src/client.rs:1308-1315 | appends a bare newline |
| `PumpHandle.Worker.Perform` | src/client.rs:373-410 | every step of the pump task on the shared channel and oneshots takes the objects from one protocol state to the next, queued and held oneshots being cancelled when it ends |
| `PumpHandle.AbleIff` | src/client.rs:373-410 | the objects allow the pump task exactly the steps that the protocol does |
| `PumpSession.Session.Send` | src/client.rs:124-128 | `send` over the shared objects reports success if and only if its item was handed over and has been written and flushed, fails only on a connection that is closed or ending, and waits only for the reply to an item |
| `PumpSession.Session.Close` | src/client.rs:350-362 | closing succeeds at once when nothing is in flight, leaves the channel closed and empty and every result observed, and fails only on a connection that is closed or ending |
| `PumpSession.SentIsOnWire` | src/client.rs:396-401 | once every item is acknowledged as written, the whole printed form of the last is on the wire |
| `PumpTask.Task.AwaitWrite` | src/client.rs:396-399 | returns when everything is flushed, a write fails or the pump task is dropped, having followed the protocol on the way |
| `PumpTask.Task.WritePump` | src/client.rs:373-410 | every execution of the loop is a run of the protocol, and every run of the protocol is carried out by the loop |
| `PumpProtocol.NextInv` | src/client.rs:83-129 | every step of caller, channel or task keeps the invariant on results, items in flight, replies and wire |
| `PumpProtocol.RunInv` | src/client.rs:373-410 | the invariant holds throughout every run |
| `PumpSafety.AtMostOneItem` | src/client.rs:915-920 | exactly one item is in the channel, with the pump or acknowledged and unread while the caller holds a oneshot, else none |
| `PumpSafety.NeverParked` | src/client.rs:915-917 | a single slot is enough: once settled, a connected pump takes the next item at once |
| `PumpSafety.CloseStrandsNothing` | src/client.rs:350-362 | closing succeeds only with nothing queued or being written and every result observed |
| `PumpSafety.UnsuccessfulPolls` | src/client.rs:95-121 | a poll that does not succeed does no more than a flush: a failed close leaves the channel open; a flush that waits changes nothing |
| `PumpSafety.CleanEnd` | src/client.rs:388-409 | in every run, a pump that ends without a failure was closed or dropped and has written every item, one still queued then included |
| `PumpSafety.Drains` | src/client.rs:373-410 | from every state of a live pump, steps in which nothing goes wrong write every item, and come to the end if the channel is closed |
| `PumpSafety.Abandoned` | src/client.rs:393-394 | when the transport is dropped, such steps lead to the end with everything written |
| `PumpSafety.WireShape` | src/client.rs:373-410 | the wire is the acknowledged items whole and in order, single newlines between them, then a prefix of at most one item more |
| `PumpSafety.NoBeatsUnasked` | src/client.rs:379-391 | without a negotiated interval the pump puts nothing of its own on the wire, in any run |
| `PumpSafety.ResultsInOrder` | src/client.rs:113-121 | each result is observed once, in hand-over order, is a success if and only if that item was written and flushed, and tells a failed write from a closed connection |
| `PumpSafety.LateResult` | src/client.rs:92-100 | a reply left unread by a dropped `send` is observed by the next poll for readiness, which fails if it was a failure |
| `PumpSafety.OutcomeIsReported` | src/client.rs:117-120 | a finished write is reported as written, a failed one as failed, and the loss of the pump task as a closed connection |
| `PumpSafety.RunGrows` | src/client.rs:373-410 | over every run results, wire and log only grow and a reply once given is never changed |
| `PumpSafety.FailureLatches` | src/client.rs:380-409 | after any failed write nothing more is acknowledged or logged, only the buffered rest can go out, and no later item is ever reported as written |
| `PumpSafety.StopSettles` | src/client.rs:404-409 | when the pump task ends an item still queued is settled as a closed connection |
| `PumpSafety.QueuedIsCancelled` | src/client.rs:117-120 | over runs: an item awaiting its reply when a write has failed is cancelled in every run to the end of the pump task, however that ends |
| `PumpSafety.StoppedRefuses` | src/client.rs:95-110 | after that no poll waits, and readiness and sending are refused |
| `PumpSafety.StoppedForever` | src/client.rs:404-409 | and that stays so: no further item is ever accepted |
| `Delivery.PeerDelivers` | src/client.rs:373-410 | a peer with a size bound that admits each item has the acknowledged messages, and at most the one that is being written or failed |
| `Delivery.EndToEnd` | src/client.rs:90-129 | in every run, for every cut into reads and every size bound that admits each item by itself, the peer's stream never fails and it has exactly the messages reported as written, in order, and at most one item more |
| `TimedPump.TimedRunIsRun` | src/client.rs:373-410 | forgetting the clock leaves a run of the pump |
| `TimedPump.HeartbeatTiming` | src/client.rs:364-368 | transmissions, one for the handshake and one for each item or beat written, complete at most a period and a write apart, and no automatic beat starts before a full period of silence |
| `TimedPump.BoundAttained` | src/client.rs:379-391 | that bound is attained: a beat after a whole period whose write takes as long as it may |
| `TimedPump.NoFalseAlarm` | src/client.rs:189-195 | if a write and the variation of the delay take at most a period, a peer tolerating two periods never finds the silence too long |
| `Supervision.DrainedWithinPeriod` | src/client.rs:281-283 | draining the ticker ends with the next tick due within one period |
| `Supervision.TickDelayed` | src/client.rs:189-195 | after a missed tick the next is due a whole period from when it was taken, after one on time a whole period from when it was due |
| `Supervision.Supervisor.PollServerTimeout` | src/client.rs:268-294 | drains the ticker, which ends because the period is positive, and fails exactly when the silence exceeds two periods |
| `Supervision.SilenceDetected` | src/client.rs:268-294 | in every run under continuous polling, with the clock and the last read of its events, the stream never fails at or before last read plus two periods and has failed by plus three |
| `Handshake.IntervalBounds` | src/client.rs:963-965 | an interval is negotiated if and only if both sides offer one, is positive, at least each offer, and one of the two |
| `Handshake.PumpDecisionExact` | src/client.rs:835-840 | a connection is given a pump if and only if some reply can make it owe beats of its own |
| `Handshake.ReplyVerdictIff` | src/client.rs:928-957 | every reply: accepted if and only if it is a CONNECTED for 1.2 whose header, if any, makes an offer, with the intervals of both offers; another version is refused as such, anything else as unexpected |
| `Handshake.PrintedReplyVerdict` | src/client.rs:928-957 | the same through the wire, for every printed server message |
| `Handshake.ReplyAccepted` | src/client.rs:928-957 | a printed CONNECTED for 1.2 is accepted with the intervals the two offers determine |
| `Handshake.HandshakeAgreement` | src/client.rs:892-957 | for all offers on both sides, through the printed frames, client and server arrive at the same interval in each direction |
| `Disconnecting.Connection.Disconnect` | src/client.rs:991-1021 | over the pumped write path: it ends well if and only if the DISCONNECT has been written and the receipt comes first; then the frame is on the wire, the channel closed and empty; nothing is taken beyond the decisive event |
| `Disconnecting.VerdictIff` | src/client.rs:1002-1020 | how the wait ends, for each ending, by the first event that is not discarded |
| `Disconnecting.CleanIff` | src/client.rs:1002-1018 | the wait ends well if and only if the matching RECEIPT comes before any ERROR, failure or end of the stream |
| `Disconnecting.FarewellIsHeard` | src/client.rs:993-1000 | a server reading the printed DISCONNECT hears the receipt it is asked for |
| `Disconnecting.VerdictFinal` | src/client.rs:1003-1020 | a verdict once reached does not depend on what arrives later |

## Left out

- TCP and TLS set-up, certificate roots, server names and the pass-through reading and writing of `TransportStream` and `Monitored`; of the latter only the time of the last read is kept.
- The `Connector` and `Subscriber` builders, which only move fields; CONNECT and SUBSCRIBE messages are taken as given.
- Wakers, `Pin`, executors and the insides of winnow, tokio, tokio-util and futures. Their behaviour appears as step rules: three-valued partial parsing, a first-in first-out channel with one slot per sender beyond its capacity of one, a oneshot that is cancelled when its sender is dropped, timers that fire on time, writes that go out in pieces and then succeed or fail.
- The direct, unpumped transport: it hands frames to the framed socket, whose batching belongs to tokio-util.
- The end of the input stream inside a frame, which tokio-util's `decode_eof` reports.
- Preemption inside a poll: `PumpSession` lets the pump task take any number of steps between two polls of the caller, each poll and each step being atomic on the shared channel and oneshots. `PumpTask.Task` holds the shared state as one value.
- The buffer capacity estimate in `serialize`, `Debug` output, the wording of errors, and which of several faults an error names.
- What a broker does with transactions, acknowledgements and redelivery; none of it is in this repository.
- Decimal.ParsePrint: numbers up to the platform's `usize` are printed by the source; the model prints every natural number.
- ComingBack.RoundTripIff: for a CONNECT with a header that is not text under the key of an absent field it states nothing; `ComingBack.BrokenLoginComesBack` shows what can happen there.
- Disconnecting.Connection.Disconnect: it models a pumped connection, where closing cannot fail once the DISCONNECT has been acknowledged; on a direct one tokio-util's sink can fail to close. Where the source would go on waiting at the end of the given events or steps, it returns `StillWaiting` or `StillSending`.
