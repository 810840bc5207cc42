/**
 The reading half of `LengthDelimited` as a function of the chunks its reads return.

 `guard` is the number of header bytes the decoder waits for before it parses the length. The code
 waits for 2; the header has `MAX_LENGTH_SIZE` = 4. Header bytes not yet read count as zero.
 */
module FrameDecoder {
  import opened Prelude
  import opened Frames

  datatype ReadState =
    | ReadLength(buf: seq<Byte>, pos: nat)
    | ReadData(len: nat, pos: nat)

  datatype Decoder = Decoder(state: ReadState, buffer: seq<Byte>) {
    predicate Valid(guard: nat) {
      match state
      case ReadLength(buf, pos) =>
        && |buf| == 4 && pos < guard <= 4 && buffer == []
        && forall i | pos <= i < 4 :: buf[i] == 0
      case ReadData(len, pos) =>
        pos < len == |buffer| < 0x1_0000_0000
    }

    /** How many bytes the next read asks for. */
    function Want(): (n: int) {
      match state
      case ReadLength(_, pos) => 4 - pos
      case ReadData(len, pos) => len - pos
    }

    /** The bytes of the current frame that a decoder with a full header has read. */
    function Partial(): (bytes: seq<Byte>)
      requires Valid(4)
      ensures Incomplete(bytes)
    {
      match state
      case ReadLength(buf, pos) => buf[..pos]
      case ReadData(len, pos) =>
        var bytes := Header(len) + buffer[..pos];
        assert bytes[..4] == Header(len);
        bytes
    }
  }

  function Zeros(n: nat): (z: seq<Byte>)
    ensures |z| == n && forall i | 0 <= i < n :: z[i] == 0
  {
    seq(n, _ => 0)
  }

  const START := Decoder(ReadLength(Zeros(4), 0), [])

  datatype Fed = Fed(next: Decoder, frame: Option<Payload>)

  /** One successful non-empty read. */
  function Feed(guard: nat, d: Decoder, chunk: seq<Byte>): (r: Fed)
    requires 1 <= guard <= 4 && d.Valid(guard) && 0 < |chunk| <= d.Want()
    ensures r.next.Valid(guard)
    ensures r.frame.Some? ==> r.next == START
  {
    match d.state
    case ReadLength(buf, pos) =>
      var buf' := buf[..pos] + chunk + buf[pos + |chunk|..];
      var pos' := pos + |chunk|;
      if pos' < guard then
        Fed(Decoder(ReadLength(buf', pos'), []), None)
      else
        var len := Length(buf');
        if len >= 1 then Fed(Decoder(ReadData(len, 0), Zeros(len)), None) else Fed(START, Some([]))
    case ReadData(len, pos) =>
      var buffer' := d.buffer[..pos] + chunk + d.buffer[pos + |chunk|..];
      var pos' := pos + |chunk|;
      if pos' == len then Fed(START, Some(buffer')) else Fed(Decoder(ReadData(len, pos'), buffer'), None)
  }

  /** The chunk does not make the decoder parse a header of which only 2 or 3 bytes have arrived. */
  predicate Faithful(guard: nat, d: Decoder, chunk: seq<Byte>)
  {
    d.state.ReadLength? ==> d.state.pos + |chunk| < guard || d.state.pos + |chunk| == 4
  }

  /** The bytes a read has brought the decoder to: those of a frame, or of the frame begun. */
  function ReadSoFar(r: Fed): (bytes: seq<Byte>)
    requires r.next.Valid(4)
  {
    if r.frame.Some? then Frame(r.frame.value) else r.next.Partial()
  }

  lemma FeedHeaderBytes(guard: nat, d: Decoder, chunk: seq<Byte>)
    requires 1 <= guard <= 4 && d.Valid(guard) && 0 < |chunk| <= d.Want() && d.state.ReadLength?
    ensures var read := ReadSoFar(Feed(guard, d, chunk));
      if Faithful(guard, d, chunk) then d.Partial() + chunk == read else |d.Partial() + chunk| < |read|
  {
    hide Header, Length;
    var buf, pos := d.state.buf, d.state.pos;
    var buf' := buf[..pos] + chunk + buf[pos + |chunk|..];
    assert buf'[..pos + |chunk|] == d.Partial() + chunk;
    if pos + |chunk| >= guard {
      var len := Length(buf');
      HeaderOfLength(buf');
      assert len > 0 ==> Header(len) + Zeros(len)[..0] == Header(len);
      assert Header(0) + [] == Header(0);
      if pos + |chunk| == 4 {
        assert buf' == d.Partial() + chunk;
      }
    }
  }

  lemma FeedBodyBytes(guard: nat, d: Decoder, chunk: seq<Byte>)
    requires 1 <= guard <= 4 && d.Valid(guard) && 0 < |chunk| <= d.Want() && d.state.ReadData?
    ensures d.Partial() + chunk == ReadSoFar(Feed(guard, d, chunk))
  {
    hide Header, Length;
    var len, pos := d.state.len, d.state.pos;
    var buffer' := d.buffer[..pos] + chunk + d.buffer[pos + |chunk|..];
    assert buffer'[..pos + |chunk|] == d.buffer[..pos] + chunk;
    Assoc(Header(len), d.buffer[..pos], chunk);
    if pos + |chunk| == len {
      assert buffer' == d.buffer[..pos] + chunk;
    }
  }

  /**
   What one read does to the bytes: nothing is lost or invented. A faithful read accounts for its
   chunk exactly; any other read makes the decoder run ahead of its input.
   */
  lemma FeedBytes(guard: nat, d: Decoder, chunk: seq<Byte>)
    requires 1 <= guard <= 4 && d.Valid(guard) && 0 < |chunk| <= d.Want()
    ensures var r := Feed(guard, d, chunk);
      var read := if r.frame.Some? then Frame(r.frame.value) else r.next.Partial();
      && (Faithful(guard, d, chunk) ==> d.Partial() + chunk == read)
      && (!Faithful(guard, d, chunk) ==> |d.Partial() + chunk| < |read|)
  {
    hide Feed, Header, Length, Frame;
    match d.state
    case ReadLength(_, _) => FeedHeaderBytes(guard, d, chunk);
    case ReadData(_, _) => FeedBodyBytes(guard, d, chunk);
  }

  /** The same with the frames returned before. */
  lemma ReadBytes(guard: nat, frames: seq<Payload>, d: Decoder, chunk: seq<Byte>)
    requires 1 <= guard <= 4 && d.Valid(guard) && 0 < |chunk| <= d.Want()
    ensures var fed := Feed(guard, d, chunk);
      var read := Encoded(frames + (if fed.frame.Some? then [fed.frame.value] else [])) + fed.next.Partial();
      && (Faithful(guard, d, chunk) ==> (Encoded(frames) + d.Partial()) + chunk == read)
      && (!Faithful(guard, d, chunk) ==> |Encoded(frames) + d.Partial()| + |chunk| < |read|)
  {
    hide Header, Length;
    var fed := Feed(guard, d, chunk);
    FeedBytes(guard, d, chunk);
    Assoc(Encoded(frames), d.Partial(), chunk);
    match fed.frame
    case None =>
      assert frames + [] == frames;
    case Some(f) =>
      EncodedAppend(frames, f);
      assert START.Partial() == [];
      assert Encoded(frames + [f]) + [] == Encoded(frames) + Frame(f);
  }

  // ---------------------------------------------------------------------------------------------
  // Runs of reads
  // ---------------------------------------------------------------------------------------------

  datatype Decoded = Decoded(decoder: Decoder, frames: seq<Payload>)

  /** All chunks read so far, in order; None if some chunk is not what the read asked for. */
  function DecodeAll(guard: nat, chunks: seq<seq<Byte>>): (r: Option<Decoded>)
    requires 1 <= guard <= 4
    ensures r.Some? ==> r.value.decoder.Valid(guard)
  {
    if chunks == [] then
      Some(Decoded(START, []))
    else
      match DecodeAll(guard, chunks[..|chunks| - 1])
      case None => None
      case Some(sofar) =>
        var chunk := chunks[|chunks| - 1];
        if !(0 < |chunk| <= sofar.decoder.Want()) then None
        else
          var fed := Feed(guard, sofar.decoder, chunk);
          Some(Decoded(fed.next, sofar.frames + (if fed.frame.Some? then [fed.frame.value] else [])))
  }

  lemma OneMoreChunk(guard: nat, chunks: seq<seq<Byte>>, chunk: seq<Byte>)
    requires 1 <= guard <= 4 && DecodeAll(guard, chunks).Some?
    requires 0 < |chunk| <= DecodeAll(guard, chunks).value.decoder.Want()
    ensures DecodeAll(guard, chunks + [chunk]).Some?
    ensures var d := DecodeAll(guard, chunks).value.decoder;
      && DecodeAll(guard, chunks + [chunk]).value.decoder == Feed(guard, d, chunk).next
      && (AllFaithful(guard, chunks + [chunk]) <==> AllFaithful(guard, chunks) && Faithful(guard, d, chunk))
  {
    hide Feed, Faithful;
    assert (chunks + [chunk])[..|chunks|] == chunks;
  }

  /** No header was parsed before its 4 bytes had arrived. */
  predicate AllFaithful(guard: nat, chunks: seq<seq<Byte>>)
    requires 1 <= guard <= 4 && DecodeAll(guard, chunks).Some?
  {
    chunks == [] ||
    (&& AllFaithful(guard, chunks[..|chunks| - 1])
     && Faithful(guard, DecodeAll(guard, chunks[..|chunks| - 1]).value.decoder, chunks[|chunks| - 1]))
  }

  /**
   The decoder has read exactly the encoding of the frames it returned and of the one it is in
   if and only if no header was parsed short. (No over-read, no under-read.)
   */
  lemma {:induction false} ExactIffFaithful(guard: nat, chunks: seq<seq<Byte>>)
    requires 1 <= guard <= 4 && DecodeAll(guard, chunks).Some?
    ensures var r := DecodeAll(guard, chunks).value;
      var bytes := Encoded(r.frames) + r.decoder.Partial();
      && (Flatten(chunks) == bytes <==> AllFaithful(guard, chunks))
      && (!AllFaithful(guard, chunks) ==> |Flatten(chunks)| < |bytes|)
  {
    hide Header, Length, Feed, Frame;
    if chunks == [] {
      var none: seq<Payload> := [];
      assert Encoded(none) + START.Partial() == [];
    } else {
      var init, chunk := chunks[..|chunks| - 1], chunks[|chunks| - 1];
      ExactIffFaithful(guard, init);
      var before := DecodeAll(guard, init).value;
      ReadBytes(guard, before.frames, before.decoder, chunk);
    }
  }

  /** With the intended guard every chunking is decoded exactly. */
  lemma {:induction false} IntendedGuardIsExact(chunks: seq<seq<Byte>>)
    requires DecodeAll(4, chunks).Some?
    ensures AllFaithful(4, chunks)
  {
    if chunks != [] {
      IntendedGuardIsExact(chunks[..|chunks| - 1]);
    }
  }

  /**
   No read leaves off inside the header of one of the payloads with `guard` or more of its bytes read.
   This looks at the input alone: where the chunks end, and where the frames begin.
   */
  predicate HeadersWhole(guard: nat, chunks: seq<seq<Byte>>, ps: seq<Payload>)
  {
    forall n, i | 0 <= n <= |chunks| && 0 <= i < |ps| :: !(guard <= Offset(chunks[..n], ps[..i]) < 4)
  }

  /** How far the chunks reach past these frames. */
  function Offset(chunks: seq<seq<Byte>>, ps: seq<Payload>): (n: int)
  {
    |Flatten(chunks)| - |Encoded(ps)|
  }

  /** An exact decoder is never inside a header past the guard. */
  lemma ExactOffset(guard: nat, chunks: seq<seq<Byte>>, ps: seq<Payload>, i: nat)
    requires 1 <= guard <= 4 && DecodeAll(guard, chunks).Some? && AllFaithful(guard, chunks)
    requires Flatten(chunks) <= Encoded(ps) && i < |ps|
    ensures !(guard <= Offset(chunks, ps[..i]) < 4)
  {
    hide Header, Length, DecodeAll, AllFaithful, Encoded, Flatten;
    var r := DecodeAll(guard, chunks).value;
    ExactIffFaithful(guard, chunks);
    WholeInput(r.frames, r.decoder.Partial(), ps);
    var j := |r.frames|;
    if i < j {
      LongerEncoding(ps[..i], r.frames);
    } else if i > j {
      LongerEncoding(ps[..j + 1], ps[..i]);
      FrameNotRead(r.frames, r.decoder.Partial(), ps, j);
    } else {
      assert ps[..i] == r.frames;
    }
  }

  /** An incomplete frame is shorter than the frame it begins. */
  lemma FrameNotRead(frames: seq<Payload>, x: seq<Byte>, ps: seq<Payload>, j: nat)
    requires Encoded(frames) + x <= Encoded(ps) && Incomplete(x) && j == |frames| < |ps|
    ensures |Encoded(frames) + x| < |Encoded(ps[..j + 1])|
  {
    hide Incomplete, Encoded, Header, Length, Frame;
    var more := ps[..j + 1];
    LongerEncoding(more, ps);
    if |Encoded(more)| <= |Encoded(frames) + x| {
      ShorterBegins(Encoded(more), Encoded(frames) + x, Encoded(ps));
      assert Encoded(more) + [] == Encoded(more);
      NoFrameLeft(frames, x, more, []);
    }
  }

  /** A short header is parsed at a place that the input shows. */
  lemma ShortHeaderOffset(guard: nat, init: seq<seq<Byte>>, chunk: seq<Byte>, ps: seq<Payload>)
    requires 1 <= guard <= 4 && DecodeAll(guard, init).Some? && AllFaithful(guard, init)
    requires chunk != [] && !Faithful(guard, DecodeAll(guard, init).value.decoder, chunk)
    requires |chunk| <= DecodeAll(guard, init).value.decoder.Want()
    requires Flatten(init) + chunk <= Encoded(ps)
    ensures exists i | 0 <= i < |ps| :: guard <= |Flatten(init)| + |chunk| - |Encoded(ps[..i])| < 4
  {
    hide Header, Length, DecodeAll, AllFaithful, Encoded, Flatten;
    var r := DecodeAll(guard, init).value;
    ExactIffFaithful(guard, init);
    assert Encoded(r.frames) + r.decoder.Partial() <= Flatten(init) + chunk;
    WholeInput(r.frames, r.decoder.Partial(), ps);
    var i := |r.frames|;
    assert ps[..i] == r.frames;
    assert r.frames != ps;
  }

  /** No header is parsed short if and only if the chunks leave the headers whole. */
  lemma {:induction false} FaithfulIff(guard: nat, chunks: seq<seq<Byte>>, ps: seq<Payload>)
    requires 1 <= guard <= 4 && DecodeAll(guard, chunks).Some?
    requires Flatten(chunks) <= Encoded(ps)
    ensures AllFaithful(guard, chunks) <==> HeadersWhole(guard, chunks, ps)
  {
    hide Header, Length, Feed, Frame, Encoded, Faithful;
    if AllFaithful(guard, chunks) {
      forall i | 0 <= i < |ps|
        ensures !(guard <= Offset(chunks, ps[..i]) < 4)
      {
        ExactOffset(guard, chunks, ps, i);
      }
    }
    assert chunks[..|chunks|] == chunks;
    if chunks != [] {
      var init, chunk := chunks[..|chunks| - 1], chunks[|chunks| - 1];
      FaithfulIff(guard, init, ps);
      assert forall n | 0 <= n <= |init| :: init[..n] == chunks[..n];
      if AllFaithful(guard, init) && !AllFaithful(guard, chunks) {
        ShortHeaderOffset(guard, init, chunk, ps);
        var i :| 0 <= i < |ps| && guard <= |Flatten(init)| + |chunk| - |Encoded(ps[..i])| < 4;
        assert guard <= Offset(chunks[..|chunks|], ps[..i]) < 4;
      }
    }
  }

  /**
   An encoding, read to its end in any chunks, comes out as the payloads that were encoded if and only
   if the chunks leave the headers whole; with the intended guard it always does.
   */
  lemma FrameRoundTrip(guard: nat, ps: seq<Payload>, chunks: seq<seq<Byte>>)
    requires 1 <= guard <= 4 && DecodeAll(guard, chunks).Some?
    requires Flatten(chunks) == Encoded(ps)
    ensures DecodeAll(guard, chunks) == Some(Decoded(START, ps)) <==> HeadersWhole(guard, chunks, ps)
    ensures guard == 4 ==> DecodeAll(guard, chunks) == Some(Decoded(START, ps))
  {
    hide HeadersWhole, AllFaithful, DecodeAll, Encoded, Flatten, Header;
    FaithfulIff(guard, chunks, ps);
    ExactIffFaithful(guard, chunks);
    var r := DecodeAll(guard, chunks).value;
    assert Encoded(ps) + [] == Encoded(ps) && START.Partial() == [];
    if guard == 4 {
      IntendedGuardIsExact(chunks);
    }
    if AllFaithful(guard, chunks) {
      UniqueParse(r.frames, r.decoder.Partial(), ps, []);
      NothingRead(guard, r.decoder);
    }
  }

  /**
   The decoder as written: an encoding read to its end comes out right if and only if no read leaves
   off 2 or 3 bytes into a frame.
   */
  lemma AsWrittenRoundTrip(ps: seq<Payload>, chunks: seq<seq<Byte>>)
    requires DecodeAll(2, chunks).Some? && Flatten(chunks) == Encoded(ps)
    ensures DecodeAll(2, chunks) == Some(Decoded(START, ps)) <==>
      forall n, i | 0 <= n <= |chunks| && 0 <= i < |ps| ::
        |Flatten(chunks[..n])| - |Encoded(ps[..i])| !in {2, 3}
  {
    hide DecodeAll, Encoded, Flatten;
    FrameRoundTrip(2, ps, chunks);
    assert forall n, i | 0 <= n <= |chunks| && 0 <= i < |ps| ::
      Offset(chunks[..n], ps[..i]) == |Flatten(chunks[..n])| - |Encoded(ps[..i])|;
  }

  lemma NothingRead(guard: nat, d: Decoder)
    requires 1 <= guard <= 4 && d.Valid(guard) && d.Partial() == []
    ensures d == START
  {
    assert d.state.buf == Zeros(4);
  }

  /**
   Where the guard as written differs from the intended one: the first 2 bytes of any frame shorter
   than 65536 bytes come out as a frame that nobody sent.
   */
  lemma ShortHeaderSpuriousFrame(p: Payload)
    requires |p| < 0x1_0000
    ensures DecodeAll(2, [Frame(p)[..2]]) == Some(Decoded(START, [[]]))
    ensures DecodeAll(4, [Frame(p)[..2]]).Some? && DecodeAll(4, [Frame(p)[..2]]).value.frames == []
  {
    var chunk := Frame(p)[..2];
    assert chunk == [0, 0];
    var chunks: seq<seq<Byte>> := [chunk];
    assert chunks[..0] == [];
    var none: seq<Payload> := [];
    assert none + [[]] == [[]];
    assert DecodeAll(2, []) == Some(Decoded(START, [])) == DecodeAll(4, []);
    var buf' := Zeros(4)[..0] + chunk + Zeros(4)[2..];
    assert buf' == Zeros(4);
    assert Length(Zeros(4)) == 0;
    assert Feed(2, START, chunk) == Fed(START, Some([]));
  }

  // ---------------------------------------------------------------------------------------------
  // End of input
  // ---------------------------------------------------------------------------------------------

  /** A read of 0 bytes ends the stream cleanly only between frames; otherwise it is an error. */
  predicate EndsCleanly(d: Decoder)
  {
    d.state.ReadLength? && d.state.pos == 0
  }

  /** Truncation is always detected, after exactly the complete frames have been returned. */
  lemma TruncationDetected(guard: nat, chunks: seq<seq<Byte>>)
    requires 1 <= guard <= 4 && DecodeAll(guard, chunks).Some? && AllFaithful(guard, chunks)
    ensures EndsCleanly(DecodeAll(guard, chunks).value.decoder) <==> exists ps :: Flatten(chunks) == Encoded(ps)
    ensures forall ps: seq<Payload>, rest ::
      Flatten(chunks) == Encoded(ps) + rest && Incomplete(rest) ==> DecodeAll(guard, chunks).value.frames == ps
  {
    var r := DecodeAll(guard, chunks).value;
    ExactIffFaithful(guard, chunks);
    forall ps: seq<Payload>, rest | Flatten(chunks) == Encoded(ps) + rest && Incomplete(rest)
      ensures r.frames == ps && r.decoder.Partial() == rest
    {
      UniqueParse(r.frames, r.decoder.Partial(), ps, rest);
    }
    if EndsCleanly(r.decoder) {
      assert Flatten(chunks) == Encoded(r.frames);
    }
    forall ps: seq<Payload> | Flatten(chunks) == Encoded(ps)
      ensures EndsCleanly(r.decoder)
    {
      assert Encoded(ps) + [] == Encoded(ps);
      UniqueParse(r.frames, r.decoder.Partial(), ps, []);
    }
  }
}
