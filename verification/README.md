# Protocol negotiation in airio

This project models how two airio peers agree on a protocol over one byte stream, and what they are
left with afterwards: the length-prefixed frames, the dialer and listener futures, the `Negotiated`
stream that may finish its negotiation on first use, the item stream adapter that can lie underneath,
the routing of composed upgrades on top, and the inbound queue of the two muxers.

## How it is built

- `Frames.dfy`, `Messages.dfy`: the wire format and its unique decodability. Strings are their UTF-8
  bytes (section 4 of RFC 3629); `Unicode.dfy` says what that means.
- `FrameDecoder.dfy`: the reading half of `LengthDelimited` as a function of the chunks its reads return.
- `LengthDelimited.dfy`: the stream underneath as a class whose calls may deliver or accept any part of
  what is asked, wait, or fail, and which logs calls and outcomes; the codec class with its poll methods.
- `Endpoint.dfy`: one side of a negotiation as a machine that moves on the outcome of each I/O call.
- `Dialer.dfy`, `Listener.dfy`, `Negotiated.dfy`: the poll methods. Each is proved to be the run of that
  machine over exactly the outcomes of the I/O calls it made.
- `LocalInvariants.dfy`: what one side keeps against any peer, whatever its reads bring.
- `Session.dfy`: a dialer and a listener joined by two byte pipes. One move is one I/O call of one
  side, so every interleaving, chunking and Pending is a run. `Scenarios.dfy`: runs that exist, and
  exactly when.
- `FrameLink.dfy`, `RwStreamSink.dfy`: sender and receiver over a byte pipe and over message items;
  `CodecRuns.dfy`: runs of calls of the codec's methods are such senders and receivers.
- `Shadow.dfy`: sessions whose reads may parse short headers, as long as a side then gives up.
- `SinkSession.dfy`: a session over message items, where the code as written parses no header of the
  negotiation short.
- `Upgrades.dfy`, `UpgradeApply.dfy`: composed upgrades. `Muxer.dfy`: the inbound queue.

The decoder takes the number of header bytes it waits for as a parameter `guard`. The code parses the
length once 2 of the 4 header bytes have arrived (`airio-stream-select/src/length_delimited.rs:111`, whose
comment speaks of a 2-byte length), with the missing ones zero; 4 is what the format needs. A read is
*faithful* if it does not make the decoder parse such a short header. With guard 4 every read is. What one
side writes, proposes and answers is proved for every run with any guard; what it has read is accounted for
in runs of faithful reads. The results about two sides hold for every guard from 1 to 4 on such runs: so for
all runs with guard 4, and as written for all runs over `RwStreamSink` (`SinkSessions.OverSink`) and for all
runs over any byte pipe if the names are shorter than 256 bytes (`Shadows.SoundForShortNames`).

A negotiation can deadlock: after a write or flush of the last proposal that fails with WriteZero, which
`poll_negotiated` tolerates, the dialer waits for the answer to bytes that have not gone out
(`Session.StuckAfterWriteZero`, `Scenarios.StuckIff`).

The assertions of `into_inner` are modelled as a phase `Panicked`, not as preconditions.

## Model

| member | source | states |
|---|---|---|
| Frames.UniqueParse | airio-stream-select/src/length_delimited.rs:168-183 | The frames in a byte sequence, and the unfinished frame at its end, are determined by the bytes. |
| Frames.BigEndian | airio-stream-select/src/length_delimited.rs:116 | The length comes most significant byte first: headers are ordered, byte by byte, as the lengths are. |
| Messages.Decode | airio-stream-select/src/protocol.rs:95-104 | Decoding is total and accepts exactly "na" and valid UTF-8 starting with '/'; what it accepts encodes back to the same bytes; which error the rest gives. |
| Messages.WireIsInjective | airio-stream-select/src/protocol.rs:82-104 | Two different message sequences never have the same bytes on the wire. |
| Unicode.Utf8Iff | airio-stream-select/src/protocol.rs:25-34 | The bytes accepted as a string are exactly the UTF-8 encodings of sequences of Unicode scalar values. |
| FrameDecoder.FeedBytes | airio-stream-select/src/length_delimited.rs:97-148 | A faithful read accounts for its bytes exactly; any other makes the decoder run ahead of its input. |
| FrameDecoder.ExactIffFaithful | airio-stream-select/src/length_delimited.rs:93-150 | For any chunks: the bytes read are the encoding of the frames returned plus the begun one if and only if no header was parsed short; so no over-read, also between polls. |
| FrameDecoder.FaithfulIff | airio-stream-select/src/length_delimited.rs:93-150 | For any guard and chunks of a beginning of an encoding: no header is parsed short if and only if no chunk ends inside a header with `guard` or more of its bytes read, which the input alone shows. |
| FrameDecoder.FrameRoundTrip | airio-stream-select/src/length_delimited.rs:93-150 | An encoding read to its end in any chunks gives back the payloads if and only if no chunk ends inside a header past the guard; with the intended guard always. |
| FrameDecoder.AsWrittenRoundTrip | airio-stream-select/src/length_delimited.rs:99-125 | The code as written: an encoding read to its end gives back the payloads if and only if no read leaves off 2 or 3 bytes into a frame. |
| FrameDecoder.ShortHeaderSpuriousFrame | airio-stream-select/src/length_delimited.rs:111-125 | The first 2 bytes of any frame shorter than 65536 bytes come out as an empty frame as written, and as nothing with the intended guard. |
| FrameDecoder.TruncationDetected | airio-stream-select/src/length_delimited.rs:97-138 | The end of input is clean if and only if the input is whole frames, and exactly the complete frames have been returned before it. |
| LengthDelimitedCodec.LengthDelimited.PollNext | airio-stream-select/src/length_delimited.rs:93-150 | The poll loop ends for any read outcomes; fields and result are those of the decoder fed with exactly the bytes read; each read asks for the rest of the header or payload; the last outcome decides the result: Pending, the stream's own error, or for 0 bytes the end of the stream between frames and UnexpectedEof inside one. |
| LengthDelimitedCodec.LengthDelimited.DrainWriteBuffer | airio-stream-select/src/length_delimited.rs:67-84 | The drain loop ends for any partial writes; each write offers the whole buffer; what was accepted is what left it; 0 bytes accepted is a WriteZero error, and any other error is the stream's own. |
| LengthDelimitedCodec.LengthDelimited.PollReady | airio-stream-select/src/length_delimited.rs:159-166 | Below MAX_FRAME_SIZE bytes buffered no I/O is done; otherwise the codec is ready only with the buffer drained. |
| LengthDelimitedCodec.LengthDelimited.StartSend | airio-stream-select/src/length_delimited.rs:168-183 | Queues exactly one frame or refuses an oversized payload; after a ready codec the buffer is at most 2 * MAX_FRAME_SIZE + 3 bytes. |
| LengthDelimitedCodec.LengthDelimited.PollFlush | airio-stream-select/src/length_delimited.rs:185-190 | The stream is flushed only with the buffer drained; the last outcome decides the result, with the stream's own error. |
| LengthDelimitedCodec.LengthDelimited.PollWriteThrough | airio-stream-select/src/length_delimited.rs:228-237 | No application byte is offered before the buffer is drained, then all are; what is accepted is a beginning of them; the last outcome decides the result. |
| CodecRuns.PollsDecode | airio-stream-select/src/length_delimited.rs:93-150 | Any sequence of `poll_next` calls, waits included: the frames returned and the state left are those of the decoder over the chunks read. |
| CodecRuns.EndIsTold | airio-stream-select/src/length_delimited.rs:97-138 | After any `poll_next` calls: a failed read returns the stream's own error, at whatever byte it comes; a read of no bytes ends the stream if and only if whole frames were read, all of them returned, and is UnexpectedEof otherwise; nothing else ends it. |
| CodecRuns.CallsSend | airio-stream-select/src/length_delimited.rs:67-197 | Any sequence of ready-then-send, drain and flush calls, whatever their I/O outcomes, is a run of sends and partial writes that wrote exactly the bytes accepted. |
| CodecRuns.CallsRoundTrip | airio-stream-select/src/length_delimited.rs:67-183 | Both together, for codecs over any byte pipe: conservation, the buffer bound, frames returned are the first payloads sent, and all of them once all is through exactly if the reads leave the headers whole. |
| FrameLink.SenderConserves | airio-stream-select/src/length_delimited.rs:159-197 | In any run of sends and partial writes, bytes written followed by the buffer are the frames in send order, and the buffer is bounded. |
| FrameLink.LinkRoundTrip | airio-stream-select/src/length_delimited.rs:67-183 | End to end, for any partial writes and any chunks that leave the headers whole (all do with the intended guard): the frames returned are the first payloads sent; once everything is through they are all of them, exactly in that case. |
| FrameLink.ExactOverSink | airio-core/src/utils/rw_stream_sink.rs:38-69 | Over RwStreamSink at both ends, in every interleaving of sends, drains and reads, each header is read whole for any guard, so the decoder as written is exact. |
| RwStreamSinks.RwStreamSink.PollRead | airio-core/src/utils/rw_stream_sink.rs:30-53 | For any items, empty ones included, and any buffer: it polls the inner stream only for items until one has bytes; bytes delivered are the items' in order; Pending, an error and end of file are returned exactly when the inner stream's last poll was that; the rest of the buffer is untouched. |
| RwStreamSinks.RwStreamSink.PollWrite | airio-core/src/utils/rw_stream_sink.rs:61-69 | The whole buffer becomes one item, or nothing is sent and the result is what `poll_ready` or `start_send` came to. |
| Dialer.DialerSelect.Poll | airio-stream-select/src/dialer_select.rs:51-137 | Ends against any peer (fewer proposals left, or a lower state rank, each round); is the run of the machine over its I/O outcomes; hands over the stream in the state of that run; Pending only on a call that waits, and a failed call, the end of the stream or an answer that is no message gives its own error. |
| Dialer.DialerSelect.Send | airio-stream-select/src/dialer_select.rs:66-92 | Queues the proposal; the last one is handed over at once, unflushed; invalid and oversized names fail. |
| Dialer.DialerSelect.AwaitAnswer | airio-stream-select/src/dialer_select.rs:104-134 | The echo of the proposal completes; "na" and any other name go on; an answer that is no message, the end of the stream and a failed read give their own errors. |
| Listener.ListenerSelect.Poll | airio-stream-select/src/listener.rs:70-155 | Is the run of the machine over its I/O outcomes, from any state; hands over the completed stream; errors as for the dialer; its bound is used up only after at least (bound - 2) / 3 frames received in this call. |
| Listener.ListenerSelect.Receive | airio-stream-select/src/listener.rs:74-109 | Answers a proposal with its echo if a supported name equals it and with "na" otherwise; "na" and what is no message fail with their own errors, as do the end of the stream and a failed read. |
| NegotiatedStream.Negotiated.PollNegotiated | airio-stream-select/src/negotiated.rs:55-107 | Is a run of the machine that begins with a flush; never waits for the answer with bytes unflushed, except after a WriteZero; the last outcome decides the result: Pending, the flush's error (the stream stays usable), the read's error, UnexpectedEof at the end, the answer's own error, agreement on the echo and `NegotiationError::Failed` on any other message. |
| NegotiatedStream.Negotiated.PollRead | airio-stream-select/src/negotiated.rs:137-152 | Once completed, asks the stream for as many bytes as the caller does and returns exactly what it delivers, or its error; otherwise returns what the negotiation came to. |
| NegotiatedStream.Negotiated.PollWrite | airio-stream-select/src/negotiated.rs:177-187 | In either state offers the bytes behind what is buffered and accepts a beginning of them; errors are the stream's own. |
| LocalInvariants.StepKeepsWriteSide | airio-stream-select/src/length_delimited.rs:67-84 | At every step of every run: bytes accepted and then the write buffer are the frames in send order and then application bytes. |
| LocalInvariants.StepKeepsReadSide | airio-stream-select/src/length_delimited.rs:93-150 | At every step that parses no short header: bytes delivered are the frames returned, the begun frame, and then application bytes. |
| LocalInvariants.RunKeepsReadSide | airio-stream-select/src/length_delimited.rs:93-237 | Both, in every run of faithful reads, so with the intended guard in every run. |
| LocalInvariants.DialerRun | airio-stream-select/src/dialer_select.rs:51-137 | Against any peer, any guard and any reads: proposals are the first names of the list, one at a time, at most all of them; at most one frame is buffered; while an answer is awaited there is another protocol; only the last answer can be an echo, and it completes under the info proposed last; it fails with the error of an answer that is no message, after understood answers only for want of another proposal and with the error that says so, and with an answer missing only by the stream's doing; no panic in the select future. |
| LocalInvariants.ListenerRun | airio-stream-select/src/listener.rs:70-155 | Against any peer, any guard and any reads: each frame is answered in order with the right reply; all answers but the last are "na"; after an echo no frame is read; it completes under the first supported info with the accepted name; it fails only by the stream's doing, on a frame that is no proposal with that frame's error, or on a name too long to echo; no panic. |
| LocalInvariants.IntendedStepIsFaithful | airio-stream-select/src/length_delimited.rs:111-113 | With the intended guard every step is faithful, so the results need no condition. |
| LocalInvariants.ErrorsSurface | airio-stream-select/src/negotiated.rs:62-91 | What each I/O outcome without bytes does to either side: a failed read or write gives its own error, except that a stream handed over before its answer outlives a failed write or flush and tolerates WriteZero; the end of the stream is `NegotiationError::Failed` to a select future between frames and UnexpectedEof otherwise. |
| LocalInvariants.ReadsAfterFlush | airio-stream-select/src/negotiated.rs:62-91 | In every state of every run: no negotiation read is made while bytes are buffered or unflushed, except after a tolerated WriteZero. |
| LocalInvariants.PanicIffEarlyEcho | airio-stream-select/src/negotiated.rs:62-98 | Against any peer, in every run, the assertion fails if and only if the last proposal is echoed while bytes of it are buffered, which takes a tolerated WriteZero. |
| LocalInvariants.ShortHeaderEndsNegotiation | airio-stream-select/src/length_delimited.rs:111-125 | As written a 2-byte first header read makes the listener fail; with the intended guard it reads on. |
| Session.RunKeepsInv | airio-stream-select/src/negotiated.rs:55-107 | Both sides' invariants hold in every state of every run, and what a side has read is a prefix of what the other wrote. |
| Session.Agreement | airio-stream-select/src/negotiated.rs:91-102 | Whenever the dialer's stream is completed under a name, at once or lazily and with optimistic bytes written or not, the listener has accepted that name, and it is the first of the dialer's list that the listener offers. |
| Session.ListenerOutcome | airio-stream-select/src/listener.rs:86-146 | What the listener accepts is the first common name, unless there is none and it is parsing application bytes; it returns the first info with that name. |
| Session.NoCommonOutcome | airio-stream-select/src/dialer_select.rs:116-131 | Without a common name the dialer never completes; once it has read an answer to every name of its list it has failed with `NegotiationError::Failed`; with no application bytes written the listener accepts nothing. |
| Session.DialerGivesUp | airio-stream-select/src/negotiated.rs:93-102 | A dialer that fails with every proposal answered has tried its whole list, none of it is offered, and the error is `NegotiationError::Failed`. |
| Session.Handover | airio-stream-select/src/negotiated.rs:137-187 | With a common name, what each application reads is a prefix of what the other wrote, and the listener's frame reader took the proposals and nothing else. |
| Session.NoPanic | airio-stream-select/src/length_delimited.rs:56-60 | With a conforming listener the assertions of `into_inner` hold at every hand-over, even after a tolerated WriteZero. |
| Session.StuckAfterWriteZero | airio-stream-select/src/negotiated.rs:62-91 | The only deadlock: if neither side goes on and not both are completed, the dialer expects its last answer after a tolerated WriteZero, with bytes of its proposals unwritten or unflushed. |
| Session.NoDeadlock | airio-stream-select/src/dialer_select.rs:93-115 | In any other state where neither side goes on, both are completed under the same name. |
| Session.NegotiationIsFinite | airio-stream-select/src/dialer_select.rs:53-135 | In every run the number of I/O calls that move a byte is bounded by the dialer's list, until an application writes. |
| Shadows.ShadowStep | airio-stream-select/src/length_delimited.rs:111-125 | A session in which a short header is parsed only by a side that then gives up, or in application bytes, is step by step one of faithful reads to the side that goes on. |
| Shadows.SoundForShortNames | airio-stream-select/src/length_delimited.rs:99-125 | The code as written over any byte pipe, nothing assumed of the reads: if all names are shorter than 256 bytes, agreement, the listener's outcome, transparent handover, no panic, and a deadlock only after a tolerated WriteZero, in every state of every run. |
| SinkSessions.SinkRunIsRun | airio-core/src/utils/rw_stream_sink.rs:30-69 | A session over RwStreamSink at both ends, any guard, with a common name or no application bytes: every state of every run is one of a session that parses no short header. |
| SinkSessions.OverSink | airio-core/src/utils/rw_stream_sink.rs:30-69 | The code as written over RwStreamSink, nothing assumed of the reads or the lists: the same results in every state of every run; without a common name the dialer never completes, and fails with `NegotiationError::Failed` on the last answer. |
| Scenarios.CompletesIff | airio-stream-select/src/dialer_select.rs:51-137 | For any lists: some run completes both sides under the i-th name if and only if it is the first common one and the names up to it can be sent; the same for runs over RwStreamSink. |
| Scenarios.ZeroRttCompletes | airio-stream-select/src/dialer_select.rs:83-89 | For any sendable list whose last name is the first common one, and any data: a run, over byte pipes and over RwStreamSink, in which both complete and the listener's application reads what was written before the negotiation was confirmed. |
| Scenarios.StuckIff | airio-stream-select/src/negotiated.rs:62-91 | For any lists: some run deadlocks if and only if the dialer's list is not empty and all sendable, and no name before the last is offered; the same for runs over RwStreamSink. |
| Scenarios.WronglyAcceptedIff | airio-stream-select/src/listener.rs:86-150 | Some run has the listener accept a name that is not the first common one if and only if there is no common name, the dialer's list is not empty and all sendable, and the listener offers a name that fits a frame; the same for runs over RwStreamSink. |
| Scenarios.PanicsIff | airio-stream-select/src/length_delimited.rs:56-60 | Some peer makes a dialer fail the assertion of `into_inner` if and only if its list is not empty and all of it can be sent. |
| Upgrades.OwnInfoReachesLeaf | airio-core/src/upgrade/select.rs:28-65 | Any tree of upgrades: an info of its own list reaches a leaf that advertises that name; Either's panic is not reached. |
| Upgrades.ListedInOrder | airio-core/src/upgrade/select.rs:28-41 | Any tree of upgrades lists the names of its leaves from left to right, each leaf's in its own order, and the info at each position leads to the leaf it comes from. |
| Upgrades.SelectChains | airio-core/src/upgrade/select.rs:28-41 | A `SelectUpgrade` lists the names of the first upgrade, then those of the second. |
| Upgrades.ListenerReachesLeftmost | airio-core/src/upgrade/select.rs:28-57 | What the listener finds for a name reaches the leftmost leaf that advertises it, and nothing is found only if no leaf does. |
| Applying.UpgradeApply.Start | airio-core/src/upgrade/either.rs:35-56 | Starting the upgrade with a selected info calls one of its leaves, one that advertises the name, with that name and the stream. |
| Applying.UpgradeApply.PollDialer | airio-core/src/upgrade/apply.rs:82-99 | Whatever the peer does, the leaf started is the one that the info selected by the dialer future leads to, over the stream that future handed over, under that info's name.; Pending only on an I/O call made in this poll that waits. |
| Applying.UpgradeApply.PollListener | airio-core/src/upgrade/apply.rs:100-120 | The same for the listener, and the leaf is the leftmost one that advertises the accepted name. |
| Applying.UpgradeApply.Poll | airio-core/src/upgrade/apply.rs:79-142 | Pending exactly while something is left to poll; the leaf future polled is the one already started, or the one that the info selected in this call leads to; its outcome is the result; while negotiating it is Pending only on an I/O call that waits, or with a listener's rounds used up on frames received; an error of the negotiation is passed on. |
| Applying.ProposesInOrder | airio-core/src/upgrade/apply.rs:47-54 | In every run a dialer proposes the names of its leaves from left to right. |
| Applying.LazyStreamKeepsInfo | airio-stream-select/src/negotiated.rs:91-102 | In every run a stream handed over before its answer is completed under the same info, or fails. |
| Applying.ListenerStartsLeftmost | airio-core/src/upgrade/apply.rs:100-119 | Whatever is read, the info a listener completes under is one of its own and leads to its leftmost leaf with that name. |
| Applying.LeavesAgree | airio-core/src/upgrade/apply.rs:82-120 | When both streams are completed, the leaves that the two sides start with their infos both advertise the agreed name, and the listener's is its leftmost one. |
| Muxers.QueueInvariant | muxers/airio-muxing/src/lib.rs:46-90 | In all runs, for both muxers: delivered then buffered streams are the arrivals in order minus those that `poll` took on a full buffer; the buffer is at most 256; a waker is stored only while it is empty. |
| Muxers.FailuresReturned | muxers/airio-muxing/src/lib.rs:30-73 | In all runs, for both muxers: each failure the connection reports is returned by the call that it was reported to, and nothing else fails. |
| Muxers.WaiterIsWoken | muxers/airio-yamux/src/lib.rs:41-82 | After `poll_inbound` returned Pending, the first stream that `poll` enqueues wakes that caller, once; otherwise each `poll` that took a stream wakes its own caller and nobody else. |
| Muxers.Muxer.PollInbound | muxers/airio-muxing/src/lib.rs:46-58 | Returns the stream that has waited longest; with none, muxing returns what the connection has, its failure included; otherwise stores the caller's waker and is Pending. The fields stay those of the run of all calls. |
| Muxers.Muxer.Poll | muxers/airio-muxing/src/lib.rs:68-90 | Takes one arrival: fails exactly if the connection does and is Pending otherwise; a stream is enqueued unless 256 wait; the wakers returned are the waiter's, when a stream was enqueued for it, and its own caller's whenever a stream was taken. The fields stay those of the run of all calls. |

## Left out

- Listener.ListenerSelect.Poll: takes a bound on its rounds, because a peer that keeps proposing keeps the loop going for ever; only such a peer uses it up, and the call may be continued by another.
- Applying.UpgradeApply.PollListener: passes that bound on and is Pending when it is used up.
- Applying.UpgradeApply.Poll: the same.
- NegotiatedStream.Negotiated.PollWrite: a WriteZero from the drain lets the machine read the answer next, although `poll_write` returns it to the caller; the session results cover the additional runs.
- Session.NoDeadlock: a side that still has bytes to write or flush, or a `Negotiated` that nobody polls, counts as able to go on.
- Session.Handover: an application that writes behind a refused last proposal has its bytes parsed as frames (`Scenarios.WronglyAcceptedIff`), so nothing is stated for lists with no common name.
- A read of 0 bytes may come at any time in a session, not only after the peer has closed; closing a pipe is not a move of its own. The results hold with the additional runs.
- `MessageIO`, `MessageReader` and `LengthDelimitedReader` forward to the codec and are folded into it.
- `poll_close` everywhere, `NegotiatedComplete` (takes and restores the stream around `poll_negotiated`), vectored reads and writes: forwarding.
- The codec's buffers are byte sequences, and a read returns its bytes instead of filling a slice; `RwStreamSink` fills the caller's array in place. Buffer capacity and growth, pinning, tracing, error texts; wakers other than the muxers'.
- Polling a future after it is ready and using a stream left invalid by an error: panics by design, a precondition here.
- The muxers' `poll_outbound` and `poll_close`, and the connections themselves, which may deliver anything; an upgrade's own future, which may end in any way.
- TCP, QUIC and WebSocket transports, identity keys, boxed and mapped transports, `Extensions`.
