/** A sending and a receiving `LengthDelimited`, joined by a byte pipe or by `RwStreamSink` at both ends. */
module FrameLink {
  import opened Prelude
  import opened Frames
  import opened FrameDecoder
  import opened RwStreamSinks

  // ---------------------------------------------------------------------------------------------
  // Any byte pipe
  // ---------------------------------------------------------------------------------------------

  /** A successful `poll_ready` and then `start_send`; or a write that took the first bytes of the buffer. */
  datatype Call = Send(p: Payload) | Write(n: nat)

  datatype Sender = Sender(out: seq<Byte>, buffer: seq<Byte>, sent: seq<Payload>)

  /** None if a call is not possible: `poll_ready` does not succeed, the payload is refused. */
  function Sending(calls: seq<Call>): (r: Option<Sender>)
  {
    if calls == [] then Some(Sender([], [], []))
    else
      match Sending(calls[..|calls| - 1])
      case None => None
      case Some(s) =>
        match calls[|calls| - 1]
        case Send(p) =>
          if |s.buffer| >= MAX_FRAME_SIZE || |p| > MAX_FRAME_SIZE then None
          else Some(Sender(s.out, s.buffer + Frame(p), s.sent + [p]))
        case Write(n) =>
          if n > |s.buffer| then None else Some(Sender(s.out + s.buffer[..n], s.buffer[n..], s.sent))
  }

  /** Conservation, and the bound on the write buffer. */
  lemma {:induction false} SenderConserves(calls: seq<Call>)
    requires Sending(calls).Some?
    ensures var s := Sending(calls).value;
      s.out + s.buffer == Encoded(s.sent) && |s.buffer| <= 2 * MAX_FRAME_SIZE + 3
  {
    hide Header;
    if calls != [] {
      SenderConserves(calls[..|calls| - 1]);
      var s := Sending(calls[..|calls| - 1]).value;
      match calls[|calls| - 1]
      case Send(p) =>
        EncodedAppend(s.sent, p);
        Assoc(s.out, s.buffer, Frame(p));
      case Write(n) =>
        assert s.buffer == s.buffer[..n] + s.buffer[n..];
        Assoc(s.out, s.buffer[..n], s.buffer[n..]);
    }
  }

  /**
   Frame round trip: whatever the partial writes and reads, if no read leaves off inside a header past
   the guard, the frames returned are the first payloads sent; and once everything is written and read
   they are all of them exactly in that case.
   */
  lemma LinkRoundTrip(guard: nat, calls: seq<Call>, chunks: seq<seq<Byte>>)
    requires 1 <= guard <= 4 && Sending(calls).Some? && DecodeAll(guard, chunks).Some?
    requires Flatten(chunks) <= Sending(calls).value.out
    ensures HeadersWhole(guard, chunks, Sending(calls).value.sent) ==>
      DecodeAll(guard, chunks).value.frames <= Sending(calls).value.sent
    ensures Flatten(chunks) == Sending(calls).value.out && Sending(calls).value.buffer == [] ==>
      (DecodeAll(guard, chunks).value == Decoded(START, Sending(calls).value.sent)
       <==> HeadersWhole(guard, chunks, Sending(calls).value.sent))
    ensures guard == 4 ==> HeadersWhole(guard, chunks, Sending(calls).value.sent)
  {
    hide Header, HeadersWhole, AllFaithful;
    var s, r := Sending(calls).value, DecodeAll(guard, chunks).value;
    SenderConserves(calls);
    assert Flatten(chunks) <= Encoded(s.sent) by {
      assert s.out <= s.out + s.buffer;
    }
    FaithfulIff(guard, chunks, s.sent);
    if guard == 4 {
      IntendedGuardIsExact(chunks);
    }
    if AllFaithful(guard, chunks) {
      ExactIffFaithful(guard, chunks);
      WholeInput(r.frames, r.decoder.Partial(), s.sent);
    }
    if Flatten(chunks) == s.out && s.buffer == [] {
      assert s.out + [] == s.out;
      FrameRoundTrip(guard, s.sent, chunks);
    }
  }

  // ---------------------------------------------------------------------------------------------
  // RwStreamSink at both ends
  // ---------------------------------------------------------------------------------------------

  /** The sender queues a frame, or drains its buffer; the receiver makes one read. */
  datatype SinkCall = Queue(p: Payload) | Drain | Read

  datatype SinkLink = SinkLink(buffer: seq<Byte>, unread: seq<seq<Byte>>, sent: seq<Payload>, chunks: seq<seq<Byte>>)

  /** A drain writes the whole buffer as one item, as RwStreamSink takes all of it. */
  function SinkStep(guard: nat, s: SinkLink, call: SinkCall): (s': SinkLink)
    requires 1 <= guard <= 4 && DecodeAll(guard, s.chunks).Some?
    ensures DecodeAll(guard, s'.chunks).Some?
  {
    match call
    case Queue(p) => s.(buffer := s.buffer + Frame(p), sent := s.sent + [p])
    case Drain => if s.buffer == [] then s else s.(buffer := [], unread := s.unread + [s.buffer])
    case Read =>
      var read := SinkRead(s.unread, DecodeAll(guard, s.chunks).value.decoder.Want());
      if read.None? then s
      else
        OneMoreChunk(guard, s.chunks, read.value.0);
        s.(unread := read.value.1, chunks := s.chunks + [read.value.0])
  }

  /** Any interleaving. */
  function SinkRun(guard: nat, calls: seq<SinkCall>): (s: SinkLink)
    requires 1 <= guard <= 4
    ensures DecodeAll(guard, s.chunks).Some?
  {
    if calls == [] then SinkLink([], [], [], [])
    else SinkStep(guard, SinkRun(guard, calls[..|calls| - 1]), calls[|calls| - 1])
  }

  ghost predicate WholeFrames(bytes: seq<Byte>)
  {
    exists ps: seq<Payload> :: bytes == Encoded(ps)
  }

  /** The decoder is at the start of a frame or of a payload, and items end where frames end. */
  ghost predicate Aligned(d: Decoder, unread: seq<seq<Byte>>)
  {
    && d.Valid(1)
    && (d.state.ReadData? ==> d.state.pos == 0)
    && (if unread == [] then d == START else WholeFrames(d.Partial() + unread[0]))
    && forall i | 1 <= i < |unread| :: WholeFrames(unread[i])
  }

  /** At the start of a frame the header is there to be read. */
  lemma HeaderAligned(guard: nat, d: Decoder, item: seq<Byte>, p: Payload, later: seq<Byte>)
    requires 1 <= guard <= 4 && d.Valid(1) && d.state.ReadLength? && item == Frame(p) + later
    ensures var fed := Feed(guard, d, item[..4]);
      && fed.next.Valid(1) && (fed.next.state.ReadData? ==> fed.next.state.pos == 0)
      && fed.next.Partial() + item[4..] == if |p| == 0 then later else Frame(p) + later
  {
    hide Header, Length;
    Assoc(Header(|p|), p, later);
    var chunk := item[..4];
    assert chunk == Header(|p|) && item[4..] == p + later;
    assert d.state.buf[..0] + chunk + d.state.buf[4..] == chunk;
    if |p| == 0 {
      assert START.Partial() + (p + later) == later;
    } else {
      var next := Feed(guard, d, chunk).next;
      assert next.Partial() == Header(|p|) + next.buffer[..0] == Header(|p|);
    }
  }

  /** After the header the payload is. */
  lemma BodyAligned(guard: nat, d: Decoder, item: seq<Byte>, p: Payload, later: seq<Byte>)
    requires 1 <= guard <= 4 && d.Valid(1) && d.state.ReadData? && d.state.pos == 0
    requires d.Partial() + item == Frame(p) + later
    ensures d.state.len == |p| && item == p + later
    ensures Feed(guard, d, p) == Fed(START, Some(p))
  {
    hide Header, Length;
    var len := d.state.len;
    Assoc(Header(|p|), p, later);
    assert d.Partial() == Header(len) + d.buffer[..0] == Header(len);
    assert (Header(len) + item)[..4] == Header(len) && (Header(|p|) + (p + later))[..4] == Header(|p|);
    assert Length(Header(len)) == len && len == |p|;
    assert item == (Header(len) + item)[4..] == p + later;
    assert d.buffer[..0] + p + d.buffer[|p|..] == p;
  }

  /** A read from such items gets the whole header, or the whole payload. */
  lemma FirstItemAligned(guard: nat, d: Decoder, item: seq<Byte>)
    requires 1 <= guard <= 4 && d.Valid(1) && (d.state.ReadData? ==> d.state.pos == 0)
    requires item != [] && WholeFrames(d.Partial() + item)
    ensures |item| >= d.Want()
    ensures var fed := Feed(guard, d, item[..d.Want()]);
      && Faithful(guard, d, item[..d.Want()]) && fed.next.Valid(1)
      && (fed.next.state.ReadData? ==> fed.next.state.pos == 0)
      && WholeFrames(fed.next.Partial() + item[d.Want()..])
  {
    hide Header, Length, Feed, Frame;
    var ps: seq<Payload> :| d.Partial() + item == Encoded(ps);
    var p, later := ps[0], Encoded(ps[1..]);
    assert Encoded(ps) == Frame(p) + later;
    match d.state
    case ReadLength(_, _) =>
      assert d.Partial() + item == item;
      HeaderAligned(guard, d, item, p, later);
    case ReadData(_, _) =>
      BodyAligned(guard, d, item, p, later);
      assert item[..|p|] == p && item[|p|..] == later;
      assert START.Partial() + later == later;
  }

  lemma {:induction false} ReadAligned(guard: nat, d: Decoder, unread: seq<seq<Byte>>)
    requires 1 <= guard <= 4 && Aligned(d, unread) && SinkRead(unread, d.Want()).Some?
    ensures var (chunk, rest) := SinkRead(unread, d.Want()).value;
      Faithful(guard, d, chunk) && d.Valid(guard) && Aligned(Feed(guard, d, chunk).next, rest)
  {
    hide Header, Length, Encoded, Feed;
    if unread[0] == [] {
      if d.state.ReadData? {
        PartialNeedsMore(d);
      }
      assert d == START by { NothingRead(1, d); }
      assert unread[1..] != [] ==> [] + unread[1..][0] == unread[1];
      ReadAligned(guard, d, unread[1..]);
    } else {
      FirstItemAligned(guard, d, unread[0]);
    }
  }

  /** A begun payload is not whole frames by itself. */
  lemma PartialNeedsMore(d: Decoder)
    requires d.Valid(1) && d.state.ReadData? && d.state.pos == 0
    ensures !WholeFrames(d.Partial() + [])
  {
    assert d.Partial() + [] == d.Partial();
    forall ps: seq<Payload> | d.Partial() == Encoded(ps)
      ensures false
    {
      assert Encoded(ps) + [] == Encoded(ps);
      if ps != [] {
        WholeFrame(ps, [], d.Partial());
      }
    }
  }

  ghost predicate SinkInv(guard: nat, s: SinkLink)
    requires 1 <= guard <= 4
  {
    && DecodeAll(guard, s.chunks).Some? && AllFaithful(guard, s.chunks)
    && Aligned(DecodeAll(guard, s.chunks).value.decoder, s.unread)
    && WholeFrames(s.buffer)
    && Flatten(s.chunks) + (Flatten(s.unread) + s.buffer) == Encoded(s.sent)
  }

  lemma QueueKeeps(guard: nat, s: SinkLink, p: Payload)
    requires 1 <= guard <= 4 && SinkInv(guard, s)
    ensures SinkInv(guard, s.(buffer := s.buffer + Frame(p), sent := s.sent + [p]))
  {
    hide Frame, Encoded, Flatten, AllFaithful, DecodeAll, Aligned;
    var ps: seq<Payload> :| s.buffer == Encoded(ps);
    EncodedAppend(ps, p);
    EncodedAppend(s.sent, p);
    Assoc(Flatten(s.unread), s.buffer, Frame(p));
    Assoc(Flatten(s.chunks), Flatten(s.unread) + s.buffer, Frame(p));
  }

  lemma DrainKeeps(guard: nat, s: SinkLink)
    requires 1 <= guard <= 4 && SinkInv(guard, s)
    ensures SinkInv(guard, s.(buffer := [], unread := s.unread + [s.buffer]))
  {
    hide Flatten, AllFaithful, DecodeAll, Aligned;
    FlattenAppend(s.unread, s.buffer);
    assert (Flatten(s.unread) + s.buffer) + [] == Flatten(s.unread) + s.buffer;
    DrainAligned(DecodeAll(guard, s.chunks).value.decoder, s.unread, s.buffer);
    var none: seq<Payload> := [];
    assert Encoded(none) == [];
  }

  lemma ReadKeeps(guard: nat, s: SinkLink, chunk: seq<Byte>, rest: seq<seq<Byte>>)
    requires 1 <= guard <= 4 && SinkInv(guard, s)
    requires SinkRead(s.unread, DecodeAll(guard, s.chunks).value.decoder.Want()) == Some((chunk, rest))
    ensures SinkInv(guard, s.(unread := rest, chunks := s.chunks + [chunk]))
  {
    hide Encoded, Flatten, Aligned, Feed, SinkRead, DecodeAll, AllFaithful, Faithful;
    var d := DecodeAll(guard, s.chunks).value.decoder;
    ReadAligned(guard, d, s.unread);
    OneMoreChunk(guard, s.chunks, chunk);
    FlattenAppend(s.chunks, chunk);
    Assoc(chunk, Flatten(rest), s.buffer);
    Assoc(Flatten(s.chunks), chunk, Flatten(rest) + s.buffer);
  }

  lemma {:induction false} SinkRunAligned(guard: nat, calls: seq<SinkCall>)
    requires 1 <= guard <= 4
    ensures SinkInv(guard, SinkRun(guard, calls))
  {
    if calls == [] {
      var none: seq<Payload> := [];
      assert Encoded(none) == [];
    } else {
      hide SinkInv, Feed, SinkRead, DecodeAll;
      SinkRunAligned(guard, calls[..|calls| - 1]);
      var s := SinkRun(guard, calls[..|calls| - 1]);
      match calls[|calls| - 1]
      case Queue(p) => QueueKeeps(guard, s, p);
      case Drain =>
        if s.buffer != [] {
          DrainKeeps(guard, s);
        }
      case Read =>
        var read := SinkRead(s.unread, DecodeAll(guard, s.chunks).value.decoder.Want());
        if read.Some? {
          ReadKeeps(guard, s, read.value.0, read.value.1);
        }
    }
  }

  lemma DrainAligned(d: Decoder, unread: seq<seq<Byte>>, buffer: seq<Byte>)
    requires Aligned(d, unread) && WholeFrames(buffer)
    ensures Aligned(d, unread + [buffer])
  {
    if unread == [] {
      assert START.Partial() + buffer == buffer;
    }
  }

  /**
   Over RwStreamSink at both ends the decoder is exact with any guard, so also as written: in every run
   each header is read whole, and the frames returned are the first payloads sent.
   */
  lemma ExactOverSink(guard: nat, calls: seq<SinkCall>)
    requires 1 <= guard <= 4
    ensures var s := SinkRun(guard, calls);
      var r := DecodeAll(guard, s.chunks).value;
      && AllFaithful(guard, s.chunks) && HeadersWhole(guard, s.chunks, s.sent)
      && (r.decoder.state.ReadLength? ==> r.decoder == START)
      && r.frames <= s.sent
      && (s.buffer == [] && Flatten(s.unread) == [] ==> r == Decoded(START, s.sent))
  {
    hide Header, Length, Feed, HeadersWhole, AllFaithful, DecodeAll, Encoded, Flatten, SinkRun;
    SinkRunAligned(guard, calls);
    var s := SinkRun(guard, calls);
    var r := DecodeAll(guard, s.chunks).value;
    ExactIffFaithful(guard, s.chunks);
    FaithfulIff(guard, s.chunks, s.sent);
    WholeInput(r.frames, r.decoder.Partial(), s.sent);
    if r.decoder.state.ReadLength? {
      NothingRead(1, r.decoder);
    }
    if s.buffer == [] && Flatten(s.unread) == [] {
      assert Flatten(s.chunks) + ([] + []) == Flatten(s.chunks);
      FrameRoundTrip(guard, s.sent, s.chunks);
    }
  }
}
