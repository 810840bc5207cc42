/**
 Runs of calls of the codec's poll methods are the runs of `FrameDecoder.dfy` and `FrameLink.dfy`: what
 is proved there about chunks and partial writes holds of the methods, with waits anywhere.
 */
module CodecRuns {
  import opened Prelude
  import opened Frames
  import opened Messages
  import opened FrameDecoder
  import opened FrameLink
  import opened StreamIo
  import opened LengthDelimitedCodec

  // ---------------------------------------------------------------------------------------------
  // Reading
  // ---------------------------------------------------------------------------------------------

  datatype Polled = Polled(codec: Codec, frames: seq<Payload>)

  /**
   Calls of `poll_next`, each given by the outcomes of its reads, and the frames they returned; None if
   one of them cannot go so, or returns an error or the end of the stream.
   */
  function Polls(guard: nat, c: Codec, calls: seq<seq<Event>>): (r: Option<Polled>)
    requires 1 <= guard <= 4 && c.decoder.Valid(guard)
    ensures r.Some? ==> r.value.codec.decoder.Valid(guard)
  {
    if calls == [] then Some(Polled(c, []))
    else
      match Polls(guard, c, calls[..|calls| - 1])
      case None => None
      case Some(before) =>
        match Drive(guard, before.codec, calls[|calls| - 1])
        case Stepped(next, Quiet) => Some(Polled(next, before.frames))
        case Stepped(next, GotFrame(f)) => Some(Polled(next, before.frames + [f]))
        case _ => None
  }

  /** The bytes of the successful reads. */
  function Chunks(es: seq<Event>): (chunks: seq<seq<Byte>>)
  {
    if es == [] then []
    else
      var e := es[|es| - 1];
      Chunks(es[..|es| - 1]) + (if e.Read? && e.data != [] then [e.data] else [])
  }

  predicate AllReads(es: seq<Event>)
  {
    forall e | e in es :: e.OfRead()
  }

  lemma ChunkDecodes(guard: nat, chunks: seq<seq<Byte>>, d: Decoder, frames: seq<Payload>, chunk: seq<Byte>)
    requires 1 <= guard <= 4 && d.Valid(guard) && 0 < |chunk| <= d.Want()
    requires DecodeAll(guard, chunks) == Some(Decoded(d, frames))
    ensures var fed := Feed(guard, d, chunk);
      DecodeAll(guard, chunks + [chunk]) ==
        Some(Decoded(fed.next, frames + (if fed.frame.Some? then [fed.frame.value] else [])))
  {
    hide Feed;
    assert (chunks + [chunk])[..|chunks|] == chunks;
  }

  lemma EventDecodes(guard: nat, chunks: seq<seq<Byte>>, c: Codec, frames: seq<Payload>, e: Event)
    requires 1 <= guard <= 4 && c.decoder.Valid(guard) && e.OfRead()
    requires DecodeAll(guard, chunks) == Some(Decoded(c.decoder, frames))
    requires CodecStep(guard, c, e).Stepped?
    requires CodecStep(guard, c, e).outcome.Quiet? || CodecStep(guard, c, e).outcome.GotFrame?
    ensures var r := CodecStep(guard, c, e);
      DecodeAll(guard, chunks + (if e.Read? && e.data != [] then [e.data] else [])) ==
        Some(Decoded(r.next.decoder, frames + (if r.outcome.GotFrame? then [r.outcome.frame] else [])))
  {
    hide Feed, DecodeAll, Header, Length;
    if e.Read? {
      ChunkDecodes(guard, chunks, c.decoder, frames, e.data);
    } else {
      assert frames + [] == frames && chunks + [] == chunks;
    }
  }

  /** One call of `poll_next`. */
  lemma {:induction false} CallDecodes(guard: nat, chunks: seq<seq<Byte>>,
        c: Codec, frames: seq<Payload>, es: seq<Event>)
    requires 1 <= guard <= 4 && c.decoder.Valid(guard) && AllReads(es)
    requires DecodeAll(guard, chunks) == Some(Decoded(c.decoder, frames))
    requires Drive(guard, c, es).Stepped?
    requires Drive(guard, c, es).outcome.Quiet? || Drive(guard, c, es).outcome.GotFrame?
    ensures var r := Drive(guard, c, es);
      DecodeAll(guard, chunks + Chunks(es)) ==
        Some(Decoded(r.next.decoder, frames + (if r.outcome.GotFrame? then [r.outcome.frame] else [])))
    decreases |es|
  {
    hide CodecStep, DecodeAll;
    assert frames + [] == frames;
    if es == [] {
      assert chunks + [] == chunks;
    } else {
      var init, e := es[..|es| - 1], es[|es| - 1];
      CallDecodes(guard, chunks, c, frames, init);
      assert e in es;
      EventDecodes(guard, chunks + Chunks(init), Drive(guard, c, init).next, frames, e);
      Assoc(chunks, Chunks(init), if e.Read? && e.data != [] then [e.data] else []);
    }
  }

  /** The frames that any calls of `poll_next` return are those of the chunks that were read. */
  lemma {:induction false} PollsDecode(guard: nat, writeBuffer: seq<Byte>, calls: seq<seq<Event>>)
    requires 1 <= guard <= 4 && Polls(guard, Codec(START, writeBuffer), calls).Some?
    requires AllReads(Flatten(calls))
    ensures var r := Polls(guard, Codec(START, writeBuffer), calls).value;
      DecodeAll(guard, Chunks(Flatten(calls))) == Some(Decoded(r.codec.decoder, r.frames))
    decreases |calls|
  {
    hide Feed, DecodeAll, Drive;
    var c := Codec(START, writeBuffer);
    if calls == [] {
      assert DecodeAll(guard, []) == Some(Decoded(START, [])) by { Nothing(guard); }
    } else {
      var init, last := calls[..|calls| - 1], calls[|calls| - 1];
      assert Flatten(calls) == Flatten(init) + last;
      PollsDecode(guard, writeBuffer, init);
      var before := Polls(guard, c, init).value;
      CallDecodes(guard, Chunks(Flatten(init)), before.codec, before.frames, last);
      ChunksConcat(Flatten(init), last);
      assert before.frames + [] == before.frames;
    }
  }

  lemma Nothing(guard: nat)
    requires 1 <= guard <= 4
    ensures DecodeAll(guard, []) == Some(Decoded(START, []))
  {
  }

  lemma {:induction false} ChunksConcat(a: seq<Event>, b: seq<Event>)
    ensures Chunks(a + b) == Chunks(a) + Chunks(b)
    decreases |b|
  {
    if b == [] {
      assert a + b == a;
    } else {
      ChunksConcat(a, b[..|b| - 1]);
      assert (a + b)[..|a + b| - 1] == a + b[..|b| - 1];
    }
  }

  /**
   How a call of `poll_next` ends, after any calls before it. An error of the stream is returned as it is,
   at whatever byte it comes. A read of no bytes ends the stream if what was read is whole frames, all of
   them returned before, and is an error otherwise; nothing else ends it.
   */
  lemma EndIsTold(guard: nat, writeBuffer: seq<Byte>, calls: seq<seq<Event>>, es: seq<Event>)
    requires 1 <= guard <= 4 && Polls(guard, Codec(START, writeBuffer), calls).Some?
    requires AllReads(Flatten(calls)) && AllReads(es) && es != []
    requires Drive(guard, Polls(guard, Codec(START, writeBuffer), calls).value.codec, es).Stepped?
    ensures var polled := Polls(guard, Codec(START, writeBuffer), calls).value;
      var out, chunks := Drive(guard, polled.codec, es).outcome, Chunks(Flatten(calls) + es);
      match es[|es| - 1]
      case ReadFailed(error) => out == ReadError(error)
      case Read(data) =>
        if data != [] then out.Quiet? || out.GotFrame?
        else DecodeAll(guard, chunks).Some? && AllFaithful(guard, chunks) ==>
          && out == (if exists ps :: Flatten(chunks) == Encoded(ps) then EndOfStream else ReadError(UnexpectedEof))
          && forall ps: seq<Payload>, rest ::
               Flatten(chunks) == Encoded(ps) + rest && Incomplete(rest) ==> polled.frames == ps
      case _ => out == Quiet
  {
    hide DecodeAll, AllFaithful, Encoded, Incomplete, Polls, Flatten, Feed;
    var init, e := es[..|es| - 1], es[|es| - 1];
    assert e in es;
    if e.Read? && e.data == [] {
      var polled := Polls(guard, Codec(START, writeBuffer), calls).value;
      PollsDecode(guard, writeBuffer, calls);
      CallDecodes(guard, Chunks(Flatten(calls)), polled.codec, polled.frames, init);
      ChunksConcat(Flatten(calls), es);
      assert Chunks(es) == Chunks(init) + [] == Chunks(init);
      assert polled.frames + [] == polled.frames;
      if DecodeAll(guard, Chunks(Flatten(calls) + es)).Some? && AllFaithful(guard, Chunks(Flatten(calls) + es)) {
        TruncationDetected(guard, Chunks(Flatten(calls) + es));
      }
    }
  }

  // ---------------------------------------------------------------------------------------------
  // Writing
  // ---------------------------------------------------------------------------------------------

  /** A `poll_ready` that succeeds and then `start_send`; or a call that drains or flushes, with any end. */
  datatype SenderCall = Sends(ready: seq<Event>, p: Payload) | Drains(es: seq<Event>)

  /** The I/O outcomes of a call that are about writing frames, none of them behind an empty buffer. */
  predicate Writes(es: seq<Event>, r: Stepped)
  {
    (forall e | e in es :: e.OfWrite() || e.OfFlush()) && r.Stepped? && !r.outcome.PassedThrough?
  }

  function OneCall(guard: nat, c: Codec, call: SenderCall): (r: Option<Codec>)
    requires 1 <= guard <= 4 && c.decoder.Valid(guard)
    ensures r.Some? ==> r.value.decoder.Valid(guard)
  {
    var es := if call.Sends? then call.ready else call.es;
    var r := Drive(guard, c, es);
    if !Writes(es, r) then None
    else if call.Drains? then Some(r.next)
    else if !r.outcome.Quiet? || |r.next.writeBuffer| >= MAX_FRAME_SIZE || |call.p| > MAX_FRAME_SIZE then None
    else Some(r.next.(writeBuffer := r.next.writeBuffer + Frame(call.p)))
  }

  function Sent(guard: nat, c: Codec, calls: seq<SenderCall>): (r: Option<Codec>)
    requires 1 <= guard <= 4 && c.decoder.Valid(guard)
    ensures r.Some? ==> r.value.decoder.Valid(guard)
  {
    if calls == [] then Some(c)
    else
      match Sent(guard, c, calls[..|calls| - 1])
      case None => None
      case Some(before) => OneCall(guard, before, calls[|calls| - 1])
  }

  /** The bytes that the stream accepted. */
  function Accepted(es: seq<Event>): (bytes: seq<Byte>)
  {
    if es == [] then []
    else Accepted(es[..|es| - 1]) + (if es[|es| - 1].Wrote? then es[|es| - 1].data else [])
  }

  function AcceptedIn(calls: seq<SenderCall>): (bytes: seq<Byte>)
  {
    if calls == [] then []
    else
      var call := calls[|calls| - 1];
      AcceptedIn(calls[..|calls| - 1]) + Accepted(if call.Sends? then call.ready else call.es)
  }

  function Payloads(calls: seq<SenderCall>): (ps: seq<Payload>)
  {
    if calls == [] then []
    else Payloads(calls[..|calls| - 1]) + (if calls[|calls| - 1].Sends? then [calls[|calls| - 1].p] else [])
  }

  /** The calls of `FrameLink.Sending` that I/O outcomes amount to. */
  function PartialWrites(es: seq<Event>): (ws: seq<Call>)
  {
    if es == [] then []
    else PartialWrites(es[..|es| - 1]) + AsWrite(es[|es| - 1])
  }

  function AsLink(calls: seq<SenderCall>): (ws: seq<Call>)
  {
    if calls == [] then []
    else
      AsLink(calls[..|calls| - 1]) +
      match calls[|calls| - 1]
      case Sends(ready, p) => PartialWrites(ready) + [Send(p)]
      case Drains(es) => PartialWrites(es)
  }

  function AsWrite(e: Event): (ws: seq<Call>)
  {
    if e.Wrote? then [Write(|e.data|)] else []
  }

  lemma OneWrite(done: seq<Call>, s: Sender, n: nat)
    requires Sending(done) == Some(s) && n <= |s.buffer|
    ensures Sending(done + [Write(n)]) == Some(Sender(s.out + s.buffer[..n], s.buffer[n..], s.sent))
  {
    assert (done + [Write(n)])[..|done|] == done;
  }

  lemma EventWrites(guard: nat, done: seq<Call>, s: Sender, c: Codec, e: Event)
    requires 1 <= guard <= 4 && c.decoder.Valid(guard)
    requires Sending(done) == Some(s) && s.buffer == c.writeBuffer
    requires Writes([e], CodecStep(guard, c, e))
    ensures Sending(done + AsWrite(e)) ==
      Some(Sender(s.out + (if e.Wrote? then e.data else []), CodecStep(guard, c, e).next.writeBuffer, s.sent))
  {
    hide Feed, Sending, Header, Length;
    assert e in [e];
    if e.Wrote? {
      OneWrite(done, s, |e.data|);
      assert e.data == c.writeBuffer[..|e.data|];
      assert c.writeBuffer[0..] == c.writeBuffer;
    } else {
      assert done + [] == done && s.out + [] == s.out;
    }
  }

  /** The I/O of one call. */
  lemma {:induction false} CallWrites(guard: nat, done: seq<Call>, s: Sender, c: Codec, es: seq<Event>)
    requires 1 <= guard <= 4 && c.decoder.Valid(guard)
    requires Sending(done) == Some(s) && s.buffer == c.writeBuffer
    requires Writes(es, Drive(guard, c, es))
    ensures Sending(done + PartialWrites(es)) ==
      Some(Sender(s.out + Accepted(es), Drive(guard, c, es).next.writeBuffer, s.sent))
    decreases |es|
  {
    hide CodecStep, Sending;
    if es == [] {
      assert done + [] == done && s.out + [] == s.out;
    } else {
      var init, e := es[..|es| - 1], es[|es| - 1];
      CallWrites(guard, done, s, c, init);
      var sofar := done + PartialWrites(init);
      assert e in es;
      EventWrites(guard, sofar, Sending(sofar).value, Drive(guard, c, init).next, e);
      Assoc(done, PartialWrites(init), AsWrite(e));
      Assoc(s.out, Accepted(init), if e.Wrote? then e.data else []);
    }
  }

  lemma OneSend(done: seq<Call>, s: Sender, p: Payload)
    requires Sending(done) == Some(s) && |s.buffer| < MAX_FRAME_SIZE && |p| <= MAX_FRAME_SIZE
    ensures Sending(done + [Send(p)]) == Some(Sender(s.out, s.buffer + Frame(p), s.sent + [p]))
  {
    hide Frame;
    assert (done + [Send(p)])[..|done|] == done;
  }

  /** Any calls of the sending methods are a run of `FrameLink.Sending`. */
  lemma {:induction false} CallsSend(guard: nat, calls: seq<SenderCall>)
    requires 1 <= guard <= 4 && Sent(guard, Codec(START, []), calls).Some?
    ensures Sending(AsLink(calls)) ==
      Some(Sender(AcceptedIn(calls), Sent(guard, Codec(START, []), calls).value.writeBuffer, Payloads(calls)))
    decreases |calls|
  {
    hide Drive, Frame, Sending, PartialWrites, Accepted;
    if calls == [] {
      assert Sending([]) == Some(Sender([], [], [])) by { NothingSent(); }
    } else {
      var init, call := calls[..|calls| - 1], calls[|calls| - 1];
      CallsSend(guard, init);
      var before := Sent(guard, Codec(START, []), init).value;
      var es := if call.Sends? then call.ready else call.es;
      CallWrites(guard, AsLink(init), Sending(AsLink(init)).value, before, es);
      if call.Sends? {
        var writes := AsLink(init) + PartialWrites(es);
        OneSend(writes, Sending(writes).value, call.p);
        Assoc(AsLink(init), PartialWrites(es), [Send(call.p)]);
      } else {
        assert Payloads(init) + [] == Payloads(init);
      }
    }
  }

  lemma NothingSent()
    ensures Sending([]) == Some(Sender([], [], []))
  {
  }

  // ---------------------------------------------------------------------------------------------
  // Both
  // ---------------------------------------------------------------------------------------------

  /**
   Two codecs over any byte pipe, with partial reads and writes and waits anywhere: what was accepted
   and what is buffered are the payloads in order, within the bound; the frames returned are the first
   payloads sent, and all of them once everything is through, exactly if the reads leave the headers
   whole, so with the intended guard always.
   */
  lemma CallsRoundTrip(guard: nat, sends: seq<SenderCall>, polls: seq<seq<Event>>)
    requires 1 <= guard <= 4 && AllReads(Flatten(polls))
    requires Sent(guard, Codec(START, []), sends).Some? && Polls(guard, Codec(START, []), polls).Some?
    requires Flatten(Chunks(Flatten(polls))) <= AcceptedIn(sends)
    ensures var buffer := Sent(guard, Codec(START, []), sends).value.writeBuffer;
      var polled := Polls(guard, Codec(START, []), polls).value;
      var ps, chunks := Payloads(sends), Chunks(Flatten(polls));
      && AcceptedIn(sends) + buffer == Encoded(ps) && |buffer| <= 2 * MAX_FRAME_SIZE + 3
      && (HeadersWhole(guard, chunks, ps) ==> polled.frames <= ps)
      && (Flatten(chunks) == Encoded(ps) ==>
           (polled == Polled(Codec(START, []), ps) <==> HeadersWhole(guard, chunks, ps)))
      && (guard == 4 ==> HeadersWhole(guard, chunks, ps))
  {
    hide HeadersWhole, DecodeAll, Sending, Encoded, Sent, Polls, Flatten;
    CallsSend(guard, sends);
    PollsDecode(guard, [], polls);
    SenderConserves(AsLink(sends));
    LinkRoundTrip(guard, AsLink(sends), Chunks(Flatten(polls)));
    if Flatten(Chunks(Flatten(polls))) == Encoded(Payloads(sends)) {
      FrameRoundTrip(guard, Payloads(sends), Chunks(Flatten(polls)));
      ReadsLeaveBuffer(guard, Codec(START, []), polls);
    }
  }

  lemma {:induction false} ReadsLeaveBuffer(guard: nat, c: Codec, polls: seq<seq<Event>>)
    requires 1 <= guard <= 4 && c.decoder.Valid(guard) && Polls(guard, c, polls).Some? && AllReads(Flatten(polls))
    ensures Polls(guard, c, polls).value.codec.writeBuffer == c.writeBuffer
    decreases |polls|
  {
    hide Feed, Drive;
    if polls != [] {
      var init, last := polls[..|polls| - 1], polls[|polls| - 1];
      assert Flatten(polls) == Flatten(init) + last;
      ReadsLeaveBuffer(guard, c, init);
      CallLeavesBuffer(guard, Polls(guard, c, init).value.codec, last);
    }
  }

  lemma {:induction false} CallLeavesBuffer(guard: nat, c: Codec, es: seq<Event>)
    requires 1 <= guard <= 4 && c.decoder.Valid(guard) && Drive(guard, c, es).Stepped? && AllReads(es)
    ensures Drive(guard, c, es).next.writeBuffer == c.writeBuffer
    decreases |es|
  {
    hide Feed;
    if es != [] {
      CallLeavesBuffer(guard, c, es[..|es| - 1]);
      assert es[|es| - 1] in es;
    }
  }
}
