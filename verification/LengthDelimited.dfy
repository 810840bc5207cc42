/** The byte stream underneath, as far as its users can tell: the outcomes of the calls made on it. */
module StreamIo {
  import opened Frames
  import opened Messages

  datatype Event =
    | Read(data: seq<Byte>)        // poll_read delivered these bytes; none at all is end of stream
    | ReadPending
    | ReadFailed(error: IoError)
    | Wrote(data: seq<Byte>)       // poll_write accepted these bytes
    | WritePending
    | WriteFailed(error: IoError)
    | Flushed
    | FlushPending
    | FlushFailed(error: IoError)
  {
    predicate OfRead() { Read? || ReadPending? || ReadFailed? }
    predicate OfWrite() { Wrote? || WritePending? || WriteFailed? }
    predicate OfFlush() { Flushed? || FlushPending? || FlushFailed? }
    predicate Waits() { ReadPending? || WritePending? || FlushPending? }
  }

  /** What a call asks for. */
  datatype Ask = AskRead(want: int) | AskWrite(bytes: seq<Byte>) | AskFlush

  /**
   Any stream: each call may deliver or accept any part of what was asked for, wait, or fail. The calls
   and their outcomes are logged.
   */
  class Io {
    ghost var asks: seq<Ask>
    ghost var log: seq<Event>

    constructor ()
      ensures asks == [] && log == []
    {
      asks, log := [], [];
    }

    method PollRead(want: nat) returns (e: Event)
      modifies this
      ensures log == old(log) + [e] && asks == old(asks) + [AskRead(want)]
      ensures e.OfRead() && (e.Read? ==> |e.data| <= want)
    {
      e := *;
      if !e.OfRead() || (e.Read? && |e.data| > want) {
        e := ReadPending;
      }
      asks, log := asks + [AskRead(want)], log + [e];
    }

    method PollWrite(bytes: seq<Byte>) returns (e: Event)
      modifies this
      ensures log == old(log) + [e] && asks == old(asks) + [AskWrite(bytes)]
      ensures e.OfWrite() && (e.Wrote? ==> e.data <= bytes)
    {
      e := *;
      if !e.OfWrite() || (e.Wrote? && !(e.data <= bytes)) {
        e := WritePending;
      }
      asks, log := asks + [AskWrite(bytes)], log + [e];
    }

    method PollFlush() returns (e: Event)
      modifies this
      ensures log == old(log) + [e] && asks == old(asks) + [AskFlush]
      ensures e.OfFlush()
    {
      e := *;
      if !e.OfFlush() {
        e := FlushPending;
      }
      asks, log := asks + [AskFlush], log + [e];
    }
  }
}

/**
 `LengthDelimited` and `LengthDelimitedReader`: what one I/O outcome does to the codec, and the poll
 methods that make the I/O calls.
 */
module LengthDelimitedCodec {
  import opened Prelude
  import opened Frames
  import opened Messages
  import opened FrameDecoder
  import opened StreamIo

  datatype Codec = Codec(decoder: Decoder, writeBuffer: seq<Byte>)

  /** What a call of the codec comes to. Quiet is not there yet (Poll::Pending if the call ends so). */
  datatype Outcome =
    | Quiet
    | GotFrame(frame: Payload)
    | EndOfStream
    | ReadError(error: IoError)
    | WriteError(error: IoError)
    | FlushDone
    | PassedThrough(data: seq<Byte>)

  datatype Stepped = Illegal | Stepped(next: Codec, outcome: Outcome)

  /** Effect of one I/O outcome; Illegal if the codec does not make that call in this state. */
  function CodecStep(guard: nat, c: Codec, e: Event): (r: Stepped)
    requires 1 <= guard <= 4 && c.decoder.Valid(guard)
    ensures r.Stepped? ==> r.next.decoder.Valid(guard)
    ensures r.Stepped? && r.outcome.GotFrame? ==> r.next.decoder == START
  {
    match e
    case Read(chunk) =>
      if |chunk| > c.decoder.Want() then Illegal
      else if chunk == [] then Stepped(c, if EndsCleanly(c.decoder) then EndOfStream else ReadError(UnexpectedEof))
      else
        var fed := Feed(guard, c.decoder, chunk);
        Stepped(c.(decoder := fed.next), if fed.frame.Some? then GotFrame(fed.frame.value) else Quiet)
    case ReadPending => Stepped(c, Quiet)
    case ReadFailed(error) => Stepped(c, ReadError(error))
    case Wrote(data) =>
      if c.writeBuffer == [] then Stepped(c, PassedThrough(data))
      else if !(data <= c.writeBuffer) then Illegal
      else if data == [] then Stepped(c, WriteError(WriteZero))
      else Stepped(c.(writeBuffer := c.writeBuffer[|data|..]), Quiet)
    case WritePending => Stepped(c, Quiet)
    case WriteFailed(error) => Stepped(c, WriteError(error))
    case Flushed => if c.writeBuffer == [] then Stepped(c, FlushDone) else Illegal
    case FlushPending => if c.writeBuffer == [] then Stepped(c, Quiet) else Illegal
    case FlushFailed(error) => if c.writeBuffer == [] then Stepped(c, WriteError(error)) else Illegal
  }

  /** A whole call: every I/O outcome but the last leaves it undecided. */
  function Drive(guard: nat, c: Codec, es: seq<Event>): (r: Stepped)
    requires 1 <= guard <= 4 && c.decoder.Valid(guard)
    ensures r.Stepped? ==> r.next.decoder.Valid(guard)
  {
    if es == [] then Stepped(c, Quiet)
    else
      var sofar := Drive(guard, c, es[..|es| - 1]);
      if sofar.Stepped? && sofar.outcome.Quiet? then CodecStep(guard, sofar.next, es[|es| - 1]) else Illegal
  }

  lemma DriveAppend(guard: nat, c: Codec, es: seq<Event>, e: Event)
    requires 1 <= guard <= 4 && c.decoder.Valid(guard)
    ensures var sofar := Drive(guard, c, es);
      Drive(guard, c, es + [e]) ==
        if sofar.Stepped? && sofar.outcome.Quiet? then CodecStep(guard, sofar.next, e) else Illegal
  {
    assert (es + [e])[..|es|] == es;
  }

  /** What the codec asks for: the rest of the header or payload, or to write the whole buffer. */
  function AskFor(c: Codec, e: Event): (ask: Ask)
    requires c.decoder.Valid(4)
  {
    if e.OfRead() then AskRead(c.decoder.Want()) else if e.OfWrite() then AskWrite(c.writeBuffer) else AskFlush
  }

  /** In the course of a call. */
  function Asks(guard: nat, c: Codec, es: seq<Event>): (asks: seq<Ask>)
    requires 1 <= guard <= 4 && c.decoder.Valid(guard)
  {
    if es == [] then []
    else
      var init := es[..|es| - 1];
      Asks(guard, c, init) +
      match Drive(guard, c, init)
      case Illegal => []
      case Stepped(now, _) => [AskFor(now, es[|es| - 1])]
  }

  lemma AsksAppend(guard: nat, c: Codec, es: seq<Event>, e: Event)
    requires 1 <= guard <= 4 && c.decoder.Valid(guard) && Drive(guard, c, es).Stepped?
    ensures Asks(guard, c, es + [e]) == Asks(guard, c, es) + [AskFor(Drive(guard, c, es).next, e)]
  {
    assert (es + [e])[..|es|] == es;
  }

  lemma NoCalls(guard: nat, c: Codec)
    requires 1 <= guard <= 4 && c.decoder.Valid(guard)
    ensures Drive(guard, c, []) == Stepped(c, Quiet) && Asks(guard, c, []) == []
  {
  }

  class LengthDelimited {
    const guard: nat
    const io: Io
    var readState: ReadState
    var readBuffer: seq<Byte>
    var writeBuffer: seq<Byte>

    constructor (io: Io, guard: nat)
      requires 1 <= guard <= 4
      ensures Valid() && this.io == io && this.guard == guard
      ensures View() == Codec(START, [])
    {
      this.io := io;
      this.guard := guard;
      readState := START.state;
      readBuffer := [];
      writeBuffer := [];
    }

    function View(): (c: Codec)
      reads this
    {
      Codec(Decoder(readState, readBuffer), writeBuffer)
    }

    predicate Valid()
      reads this
    {
      1 <= guard <= 4 && View().decoder.Valid(guard)
    }

    /** `into_inner` asserts this before it hands the stream over. */
    predicate CanRelease()
      reads this
    {
      readBuffer == [] && writeBuffer == []
    }

    /** The header branch of `poll_next`: None to go round the loop again. */
    method ReadHeader() returns (r: Option<Outcome>, ghost e: Event)
      requires Valid() && readState.ReadLength?
      modifies this, io
      ensures Valid() && writeBuffer == old(writeBuffer)
      ensures io.log == old(io.log) + [e] && e.OfRead()
      ensures io.asks == old(io.asks) + [AskRead(old(View()).decoder.Want())]
      ensures CodecStep(guard, old(View()), e) == Stepped(View(), if r.None? then Quiet else r.value)
      ensures match e
        case Read(data) =>
          if data != [] then r.None? || r.value.GotFrame?
          else r == Some(if View().decoder.Partial() == [] then EndOfStream else ReadError(UnexpectedEof))
        case ReadPending => r == Some(Quiet)
        case ReadFailed(error) => r == Some(ReadError(error))
        case _ => false
      ensures r.Some? && r.value.GotFrame? ==> View().decoder == START
      ensures r.None? && readState.ReadLength? ==> View().decoder.Want() < old(View()).decoder.Want()
    {
      hide Header, Length;
      var buf, pos := readState.buf, readState.pos;
      var read := io.PollRead(4 - pos);
      e := read;
      if read.ReadPending? { return Some(Quiet), e; }
      if read.ReadFailed? { return Some(ReadError(read.error)), e; }
      var n := |read.data|;
      if pos == 0 && n == 0 {
        return Some(EndOfStream), e;
      } else if n == 0 {
        return Some(ReadError(UnexpectedEof)), e;
      }
      buf := buf[..pos] + read.data + buf[pos + n..];
      readState := ReadLength(buf, pos + n);
      if pos + n < guard {
        return None, e;
      }
      var len := Length(buf);
      if len >= 1 {
        readState := ReadData(len, 0);
        readBuffer := Zeros(len);
        r := None;
      } else {
        readState := START.state;
        r := Some(GotFrame([]));
      }
    }

    /** The payload branch of `poll_next`. */
    method ReadBody() returns (r: Option<Outcome>, ghost e: Event)
      requires Valid() && readState.ReadData?
      modifies this, io
      ensures Valid() && writeBuffer == old(writeBuffer)
      ensures io.log == old(io.log) + [e] && e.OfRead()
      ensures io.asks == old(io.asks) + [AskRead(old(View()).decoder.Want())]
      ensures CodecStep(guard, old(View()), e) == Stepped(View(), if r.None? then Quiet else r.value)
      ensures match e
        case Read(data) =>
          if data != [] then r.None? || r.value.GotFrame?
          else r == Some(if View().decoder.Partial() == [] then EndOfStream else ReadError(UnexpectedEof))
        case ReadPending => r == Some(Quiet)
        case ReadFailed(error) => r == Some(ReadError(error))
        case _ => false
      ensures r.Some? && r.value.GotFrame? ==> View().decoder == START
      ensures r.None? ==> readState.ReadData? && View().decoder.Want() < old(View()).decoder.Want()
    {
      var len, pos := readState.len, readState.pos;
      var read := io.PollRead(len - pos);
      e := read;
      if read.ReadPending? { return Some(Quiet), e; }
      if read.ReadFailed? { return Some(ReadError(read.error)), e; }
      var n := |read.data|;
      if n == 0 {
        return Some(ReadError(UnexpectedEof)), e;
      }
      readBuffer := readBuffer[..pos] + read.data + readBuffer[pos + n..];
      readState := ReadData(len, pos + n);
      r := None;
      if pos + n == len {
        r := Some(GotFrame(readBuffer));
        readBuffer := [];
        readState := START.state;
      }
    }

    /**
     `poll_next`. The loop ends for any read outcomes: each successful one leaves less of the frame. The
     last outcome decides the result: an error of the stream is returned as it is, and a read of no
     bytes is the end of the stream only if no byte of a frame has been read.
     */
    method PollNext() returns (r: Outcome, ghost es: seq<Event>)
      requires Valid()
      modifies this, io
      ensures Valid() && writeBuffer == old(writeBuffer)
      ensures io.log == old(io.log) + es && es != [] && forall e | e in es :: e.OfRead()
      ensures io.asks == old(io.asks) + Asks(guard, old(View()), es)
      ensures forall i | 0 <= i < |es| - 1 :: es[i].Read? && es[i].data != []
      ensures match es[|es| - 1]
        case Read(data) =>
          if data != [] then r.GotFrame?
          else r == if View().decoder.Partial() == [] then EndOfStream else ReadError(UnexpectedEof)
        case ReadPending => r == Quiet
        case ReadFailed(error) => r == ReadError(error)
        case _ => false
      ensures r.GotFrame? ==> View().decoder == START
      ensures Drive(guard, old(View()), es) == Stepped(View(), r)
    {
      hide Feed, CodecStep, Drive, Asks, Header, Length;
      es := [];
      NoCalls(guard, View());
      while true
        invariant Valid() && writeBuffer == old(writeBuffer)
        invariant io.log == old(io.log) + es && forall e | e in es :: e.Read? && e.data != []
        invariant Drive(guard, old(View()), es) == Stepped(View(), Quiet)
        invariant io.asks == old(io.asks) + Asks(guard, old(View()), es)
        decreases if readState.ReadLength? then 1 else 0, View().decoder.Want()
      {
        var done;
        ghost var e;
        match readState {
          case ReadLength(_, _) => done, e := ReadHeader();
          case ReadData(_, _) => done, e := ReadBody();
        }
        DriveAppend(guard, old(View()), es, e);
        AsksAppend(guard, old(View()), es, e);
        es := es + [e];
        if done.Some? {
          return done.value, es;
        }
      }
    }

    /** `poll_write_buffer`: None when the buffer is drained, otherwise why it is not. */
    method DrainWriteBuffer() returns (r: Option<Outcome>, ghost es: seq<Event>)
      requires Valid()
      modifies this`writeBuffer, io
      ensures Valid()
      ensures io.log == old(io.log) + es && forall e | e in es :: e.OfWrite()
      ensures io.asks == old(io.asks) + Asks(guard, old(View()), es)
      ensures r.None? ==> writeBuffer == [] && Drive(guard, old(View()), es) == Stepped(View(), Quiet)
      ensures r.Some? ==> es != [] && writeBuffer != [] && Drive(guard, old(View()), es) == Stepped(View(), r.value)
      ensures r.Some? ==> match es[|es| - 1]
        case Wrote(data) => data == [] && r == Some(WriteError(WriteZero))
        case WritePending => r == Some(Quiet)
        case WriteFailed(error) => r == Some(WriteError(error))
        case _ => false
    {
      hide Feed, Drive, Asks, Header, Length;
      es := [];
      NoCalls(guard, View());
      while writeBuffer != []
        invariant Valid()
        invariant io.log == old(io.log) + es && forall e | e in es :: e.OfWrite()
        invariant Drive(guard, old(View()), es) == Stepped(View(), Quiet)
        invariant io.asks == old(io.asks) + Asks(guard, old(View()), es)
        decreases |writeBuffer|
      {
        var e := io.PollWrite(writeBuffer);
        DriveAppend(guard, old(View()), es, e);
        AsksAppend(guard, old(View()), es, e);
        es := es + [e];
        if e.WritePending? { return Some(Quiet), es; }
        if e.WriteFailed? { return Some(WriteError(e.error)), es; }
        var len := |e.data|;
        if len == 0 {
          return Some(WriteError(WriteZero)), es;
        }
        writeBuffer := writeBuffer[len..];
      }
      r := None;
    }

    /** `poll_ready`: None when a frame may be sent. */
    method PollReady() returns (r: Option<Outcome>, ghost es: seq<Event>)
      requires Valid()
      modifies this`writeBuffer, io
      ensures Valid()
      ensures io.log == old(io.log) + es && forall e | e in es :: e.OfWrite()
      ensures io.asks == old(io.asks) + Asks(guard, old(View()), es)
      ensures |old(writeBuffer)| < MAX_FRAME_SIZE ==> r.None? && es == [] && writeBuffer == old(writeBuffer)
      ensures |old(writeBuffer)| >= MAX_FRAME_SIZE && r.None? ==> writeBuffer == []
      ensures r.None? ==> |writeBuffer| < MAX_FRAME_SIZE && Drive(guard, old(View()), es) == Stepped(View(), Quiet)
      ensures r.Some? ==> writeBuffer != [] && Drive(guard, old(View()), es) == Stepped(View(), r.value)
      ensures r.Some? ==> es != [] && match es[|es| - 1]
        case Wrote(data) => data == [] && r == Some(WriteError(WriteZero))
        case WritePending => r == Some(Quiet)
        case WriteFailed(error) => r == Some(WriteError(error))
        case _ => false
    {
      r, es := None, [];
      if |writeBuffer| >= MAX_FRAME_SIZE {
        r, es := DrainWriteBuffer();
      }
    }

    /** `start_send`: queues one frame, or refuses a payload that is too large. */
    method StartSend(item: seq<Byte>) returns (ok: bool)
      requires Valid()
      modifies this`writeBuffer
      ensures ok <==> |item| <= MAX_FRAME_SIZE
      ensures writeBuffer == if ok then old(writeBuffer) + Frame(item) else old(writeBuffer)
      ensures ok && |old(writeBuffer)| < MAX_FRAME_SIZE ==> |writeBuffer| <= 2 * MAX_FRAME_SIZE + 3
    {
      if |item| > MAX_FRAME_SIZE {
        return false;
      }
      writeBuffer := writeBuffer + Header(|item|);
      writeBuffer := writeBuffer + item;
      assert old(writeBuffer) + Header(|item|) + item == old(writeBuffer) + Frame(item);
      return true;
    }

    /** `poll_flush`: the inner stream is flushed only once the buffer is drained. */
    method PollFlush() returns (r: Outcome, ghost es: seq<Event>)
      requires Valid()
      modifies this`writeBuffer, io
      ensures Valid()
      ensures io.log == old(io.log) + es && es != [] && forall e | e in es :: e.OfWrite() || e.OfFlush()
      ensures io.asks == old(io.asks) + Asks(guard, old(View()), es)
      ensures Drive(guard, old(View()), es) == Stepped(View(), r)
      ensures match es[|es| - 1]
        case Wrote(data) => data == [] && writeBuffer != [] && r == WriteError(WriteZero)
        case WriteFailed(error) => r == WriteError(error)
        case Flushed => writeBuffer == [] && r == FlushDone
        case FlushFailed(error) => writeBuffer == [] && r == WriteError(error)
        case WritePending => r == Quiet
        case FlushPending => r == Quiet
        case _ => false
    {
      hide Feed, Drive, Asks, Header, Length;
      var blocked;
      blocked, es := DrainWriteBuffer();
      if blocked.Some? {
        return blocked.value, es;
      }
      var e := io.PollFlush();
      DriveAppend(guard, old(View()), es, e);
      AsksAppend(guard, old(View()), es, e);
      es := es + [e];
      r := match e case Flushed => FlushDone case FlushFailed(error) => WriteError(error) case _ => Quiet;
    }

    /** `LengthDelimitedReader::poll_write`: no byte passes before the buffer is drained. */
    method PollWriteThrough(bytes: seq<Byte>) returns (r: Outcome, ghost es: seq<Event>)
      requires Valid()
      modifies this`writeBuffer, io
      ensures Valid()
      ensures io.log == old(io.log) + es && es != [] && forall e | e in es :: e.OfWrite()
      ensures io.asks == old(io.asks) +
        if writeBuffer != [] then Asks(guard, old(View()), es)
        else Asks(guard, old(View()), es[..|es| - 1]) + [AskWrite(bytes)]
      ensures Drive(guard, old(View()), es) == Stepped(View(), r)
      ensures match es[|es| - 1]
        case Wrote(data) =>
          if writeBuffer == [] then data <= bytes && r == PassedThrough(data)
          else data == [] && r == WriteError(WriteZero)
        case WriteFailed(error) => r == WriteError(error)
        case WritePending => r == Quiet
        case _ => false
    {
      hide Feed, Drive, Asks, Header, Length;
      var blocked;
      blocked, es := DrainWriteBuffer();
      if blocked.Some? {
        return blocked.value, es;
      }
      var e := io.PollWrite(bytes);
      DriveAppend(guard, old(View()), es, e);
      assert (es + [e])[..|es|] == es;
      es := es + [e];
      r := match e case Wrote(data) => PassedThrough(data) case WriteFailed(error) => WriteError(error) case _ => Quiet;
    }
  }
}
