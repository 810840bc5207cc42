/** `Negotiated`: the stream an application gets, which may finish its negotiation on first use. */
module NegotiatedStream {
  import opened Prelude
  import opened Frames
  import opened Messages
  import opened FrameDecoder
  import opened StreamIo
  import opened LengthDelimitedCodec
  import opened Endpoints

  datatype State = Expecting(protocol: Protocol) | Completed | Invalid

  datatype Negotiation = Pending | Agreed | Refused(error: NegotiationError) | Panic

  datatype ReadPoll = NoneYet | Bytes(data: seq<Byte>) | ReadRefused(error: NegotiationError) | ReadPanic

  class Negotiated {
    const codec: LengthDelimited   // the stream itself, codec.io, once Completed
    var state: State
    ghost var endpoint: Endpoint

    ghost predicate Valid()
      reads this, codec
    {
      && codec.Valid() && endpoint.codec == codec.View()
      && match state
         case Expecting(protocol) => endpoint.phase.Expecting? && NameOf(endpoint.phase.proposal) == protocol
         case Completed => endpoint.phase.Completed?
         case Invalid => endpoint.phase.Final()
    }

    /** `Negotiated::expecting` */
    constructor Expect(codec: LengthDelimited, protocol: Protocol, ghost endpoint: Endpoint)
      requires codec.Valid() && endpoint.codec == codec.View()
      requires endpoint.phase.Expecting? && NameOf(endpoint.phase.proposal) == protocol
      ensures Valid() && this.codec == codec && this.endpoint == endpoint && state == State.Expecting(protocol)
    {
      this.codec := codec;
      this.endpoint := endpoint;
      state := State.Expecting(protocol);
    }

    /** `Negotiated::completed` */
    constructor Complete(codec: LengthDelimited, ghost endpoint: Endpoint)
      requires codec.Valid() && endpoint.codec == codec.View() && endpoint.phase.Completed?
      ensures Valid() && this.codec == codec && this.endpoint == endpoint && state == State.Completed
    {
      this.codec := codec;
      this.endpoint := endpoint;
      state := State.Completed;
    }

    /** `poll_flush` */
    method PollFlush() returns (r: Outcome, ghost es: seq<Event>)
      requires Valid() && !state.Invalid?
      modifies this`endpoint, codec`writeBuffer, codec.io
      ensures Valid() && codec.io.log == old(codec.io.log) + es && es != []
      ensures Run(codec.guard, old(endpoint), es) == Some(endpoint)
      ensures (forall e | e in es :: !e.OfRead()) && (state.Completed? ==> |es| == 1)
      ensures match es[|es| - 1]
        case Wrote(data) => data == [] && state.Expecting? && r == WriteError(WriteZero)
        case WriteFailed(error) => state.Expecting? && r == WriteError(error)
        case Flushed => r == FlushDone
        case FlushFailed(error) => r == WriteError(error)
        case WritePending => r == Quiet
        case FlushPending => r == Quiet
        case _ => false
      ensures endpoint.hist.received == old(endpoint.hist.received) && endpoint.hist.appIn == old(endpoint.hist.appIn)
      ensures state.Expecting? && r.FlushDone? ==> endpoint.phase.status.FlushedAll?
      ensures state.Expecting? && r == WriteError(WriteZero) ==> endpoint.phase.status.Tolerated?
    {
      hide Feed, CodecStep, Drive, Utf8, Header, Length, Frame, NameOf, Decode, StartsWithSlash, Queue;
      hide React, Settle;
      match state {
        case Expecting(_) =>
          r, es := codec.PollFlush();
          CallIsRun(codec.guard, endpoint, es, codec.View(), r);
          WriteNoted(Absorb(endpoint, es, codec.View()), r);
          endpoint := React(Absorb(endpoint, es, codec.View()), r);
        case Completed =>
          var e := codec.io.PollFlush();
          es := [e];
          OneStep(codec.guard, endpoint, e);
          endpoint := Pass(endpoint, e);
          r := match e case Flushed => FlushDone case FlushFailed(error) => WriteError(error) case _ => Quiet;
      }
    }

    /** What `poll_negotiated` does with the outcome of reading the answer. */
    method Conclude(out: Outcome, protocol: Protocol) returns (r: Negotiation)
      requires codec.Valid() && endpoint.codec == codec.View() && state.Invalid?
      requires endpoint.phase.Expecting? && NameOf(endpoint.phase.proposal) == protocol
      requires out.Quiet? || out.GotFrame? || out.EndOfStream? || out.ReadError?
      modifies this
      ensures Valid() && endpoint == React(old(endpoint), out)
      ensures r == match endpoint.phase
        case Expecting(_, _) => Pending
        case Completed(_) => Agreed
        case Failed(error) => Refused(error)
        case _ => Panic
      ensures match out
        case Quiet => r == Pending && endpoint == old(endpoint) && state == State.Expecting(protocol)
        case EndOfStream => r == Refused(Io(UnexpectedEof)) && state.Invalid?
        case ReadError(error) => r == Refused(Io(error)) && state.Invalid?
        case GotFrame(f) =>
          && endpoint.hist == old(endpoint.hist).(received := old(endpoint.hist.received) + [f])
          && (match Messages.Decode(f)
              case Err(error) => r == Refused(error)
              case Ok(m) =>
                if m.Propose? && m.protocol == protocol then r == if codec.CanRelease() then Agreed else Panic
                else r == Refused(NoAgreement))
        case _ => false
      ensures !out.GotFrame? ==> endpoint.hist == old(endpoint.hist)
      ensures r.Agreed? <==> state.Completed?
    {
      hide Utf8, Header, Length, Frame, NameOf, Decode, Queue;
      endpoint := React(endpoint, out);
      match out {
        case Quiet =>
          state := State.Expecting(protocol);
          return Pending;
        case EndOfStream => return Refused(Io(UnexpectedEof));
        case ReadError(error) => return Refused(Io(error));
        case GotFrame(f) =>
          var msg := Messages.Decode(f);
          if msg.Err? {
            return Refused(msg.error);
          }
          if msg.value.Propose? && msg.value.protocol == protocol {
            if !codec.CanRelease() {
              return Panic;
            }
            state := State.Completed;
            return Agreed;
          }
          return Refused(NoAgreement);
      }
    }

    /** The loop of `poll_negotiated`, which never goes round: every message decides. */
    method ReadAnswer() returns (r: Negotiation, ghost es: seq<Event>)
      requires Valid() && state.Expecting? && !endpoint.phase.status.Unflushed?
      modifies this, codec, codec.io
      ensures Valid() && codec.io.log == old(codec.io.log) + es && es != []
      ensures Run(codec.guard, old(endpoint), es) == Some(endpoint)
      ensures forall e | e in es :: e.OfRead()
      ensures match es[|es| - 1]
        case Read(data) =>
          if data == [] then r == Refused(Io(UnexpectedEof))
          else
            && endpoint.hist.received != []
            && (match Messages.Decode(endpoint.hist.received[|endpoint.hist.received| - 1])
                case Err(error) => r == Refused(error)
                case Ok(m) =>
                  if m.Propose? && m.protocol == old(state).protocol
                  then r == if codec.writeBuffer == [] then Agreed else Panic
                  else r == Refused(NoAgreement))
        case ReadFailed(error) => r == Refused(Io(error))
        case ReadPending => r == Pending
        case _ => false
      ensures endpoint.hist.appIn == old(endpoint.hist.appIn)
      ensures r.Pending? ==> state == old(state) && endpoint.phase == old(endpoint.phase)
      ensures r.Agreed? <==> state.Completed?
      ensures r.Refused? ==> state.Invalid? && endpoint.phase == Failed(r.error)
      ensures r.Panic? ==> state.Invalid? && endpoint.phase.Panicked?
    {
      hide Feed, CodecStep, Step, Drive, NameOf, Decode, Utf8, Header;
      ghost var before := endpoint;
      var protocol := state.protocol;
      state := Invalid;
      var out;
      out, es := codec.PollNext();
      CallIsRun(codec.guard, before, es, codec.View(), out);
      endpoint := Absorb(before, es, codec.View());
      r := Conclude(out, protocol);
    }

    /**
     `poll_negotiated`: flush, then read the answer; a WriteZero from the flush does not stop it. The last
     outcome decides the result.
     */
    method PollNegotiated() returns (r: Negotiation, ghost es: seq<Event>)
      requires Valid() && !state.Invalid?
      modifies this, codec, codec.io
      ensures Valid() && codec.io.log == old(codec.io.log) + es && es != []
      ensures Run(codec.guard, old(endpoint), es) == Some(endpoint)
      ensures match es[|es| - 1]
        case Read(data) => old(state).Expecting? &&
          if data == [] then r == Refused(Io(UnexpectedEof))
          else
            && endpoint.hist.received != []
            && (match Messages.Decode(endpoint.hist.received[|endpoint.hist.received| - 1])
                case Err(error) => r == Refused(error)
                case Ok(m) =>
                  if m.Propose? && m.protocol == old(state).protocol
                  then r == if codec.writeBuffer == [] then Agreed else Panic
                  else r == Refused(NoAgreement))
        case ReadFailed(error) => r == Refused(Io(error))
        case ReadPending => r == Pending
        case Flushed => r == Agreed
        case WriteFailed(error) => error != WriteZero && r == Refused(Io(error))
        case FlushFailed(error) => if error == WriteZero then r == Agreed else r == Refused(Io(error))
        case WritePending => r == Pending
        case FlushPending => r == Pending
        case Wrote(_) => false
      ensures !es[0].OfRead() && endpoint.hist.appIn == old(endpoint.hist.appIn)
      ensures r.Pending? ==> state == old(state)
      ensures r.Agreed? ==> state.Completed?
      ensures state.Completed? ==> r.Agreed? || old(state).Completed?
      ensures r.Refused? && state.Invalid? ==> endpoint.phase == Failed(r.error)
      ensures r.Refused? && !es[|es| - 1].OfRead() ==> state == old(state)
      ensures r.Panic? ==> endpoint.phase.Panicked?
      ensures r.Pending? && state.Expecting? && es[|es| - 1].OfRead() && !endpoint.phase.status.Tolerated? ==>
        endpoint.phase.status.FlushedAll?
    {
      hide Feed, CodecStep, React, Step, Run, NameOf, Decode, Utf8, Header;
      var flushed;
      flushed, es := PollFlush();
      if flushed.Quiet? {
        return Pending, es;
      }
      if flushed.WriteError? && flushed.error != WriteZero {
        return Refused(Io(flushed.error)), es;
      }
      if state.Completed? {
        return Agreed, es;
      }
      ghost var mid := endpoint;
      ghost var events;
      r, events := ReadAnswer();
      RunConcat(codec.guard, old(endpoint), es, mid, events);
      es := es + events;
    }

    /**
     `poll_read`: application bytes come only from a completed stream. What that stream's read comes to
     is returned; if the call does not get so far, what the negotiation came to is.
     */
    method PollRead(want: nat) returns (r: ReadPoll, ghost es: seq<Event>)
      requires Valid() && !state.Invalid?
      modifies this, codec, codec.io
      ensures Valid() && codec.io.log == old(codec.io.log) + es && es != []
      ensures Run(codec.guard, old(endpoint), es) == Some(endpoint)
      ensures state.Completed? ==> match es[|es| - 1]
        case Read(data) => r == Bytes(data)
        case ReadFailed(error) => r == ReadRefused(Io(error))
        case ReadPending => r == NoneYet
        case _ => false
      ensures !state.Completed? ==> match es[|es| - 1]
        case Read(data) => old(state).Expecting? &&
          if data == [] then r == ReadRefused(Io(UnexpectedEof))
          else
            && endpoint.hist.received != []
            && (match Messages.Decode(endpoint.hist.received[|endpoint.hist.received| - 1])
                case Err(error) => r == ReadRefused(error)
                case Ok(m) =>
                  if m.Propose? && m.protocol == old(state).protocol then r == ReadPanic
                  else r == ReadRefused(NoAgreement))
        case ReadFailed(error) => r == ReadRefused(Io(error))
        case ReadPending => r == NoneYet
        case WriteFailed(error) => error != WriteZero && r == ReadRefused(Io(error))
        case FlushFailed(error) => error != WriteZero && r == ReadRefused(Io(error))
        case WritePending => r == NoneYet
        case FlushPending => r == NoneYet
        case _ => false
      ensures r.Bytes? ==> state.Completed?
      ensures state.Completed? ==> codec.io.asks != [] && codec.io.asks[|codec.io.asks| - 1] == AskRead(want)
      ensures r.Bytes? ==> |r.data| <= want
      ensures if old(state).Completed? then |es| == 1 else !es[0].OfRead()
      ensures endpoint.hist.appIn == old(endpoint.hist.appIn) + (if r.Bytes? then r.data else [])
      ensures r.ReadPanic? ==> endpoint.phase.Panicked?
    {
      hide Feed, CodecStep, React, Step, NameOf, Decode, Utf8, Header;
      es := [];
      if !state.Completed? {
        var n;
        n, es := PollNegotiated();
        match n {
          case Pending => return NoneYet, es;
          case Refused(error) => return ReadRefused(error), es;
          case Panic => return ReadPanic, es;
          case Agreed =>
        }
      }
      ghost var mid := endpoint;
      var e := codec.io.PollRead(want);
      OneStep(codec.guard, mid, e);
      RunConcat(codec.guard, old(endpoint), es, mid, [e]);
      es := es + [e];
      endpoint := Pass(mid, e);
      r := match e case Read(data) => Bytes(data) case ReadFailed(error) => ReadRefused(Io(error)) case _ => NoneYet;
    }

    /** `poll_write`: allowed before the negotiation is confirmed, behind what is still buffered. */
    method PollWrite(bytes: seq<Byte>) returns (r: Outcome, ghost es: seq<Event>)
      requires Valid() && !state.Invalid?
      modifies this`endpoint, codec`writeBuffer, codec.io
      ensures Valid() && codec.io.log == old(codec.io.log) + es && es != []
      ensures Run(codec.guard, old(endpoint), es) == Some(endpoint)
      ensures match es[|es| - 1]
        case Wrote(data) =>
          if state.Completed? || codec.writeBuffer == [] then data <= bytes && r == PassedThrough(data)
          else data == [] && r == WriteError(WriteZero)
        case WriteFailed(error) => r == WriteError(error)
        case WritePending => r == Quiet
        case _ => false
      ensures state.Completed? || codec.writeBuffer == [] ==>
        codec.io.asks != [] && codec.io.asks[|codec.io.asks| - 1] == AskWrite(bytes)
      ensures state.Completed? ==> |es| == 1
      ensures endpoint.hist.appOut == old(endpoint.hist.appOut) + (if r.PassedThrough? then r.data else [])
    {
      hide Feed, CodecStep, Drive, Utf8, Header, Length, Frame, NameOf, Decode, StartsWithSlash, Queue;
      hide OnMessage, HandOver, React, Settle;
      match state {
        case Expecting(_) =>
          r, es := codec.PollWriteThrough(bytes);
          CallIsRun(codec.guard, endpoint, es, codec.View(), r);
          WriteNoted(Absorb(endpoint, es, codec.View()), r);
          endpoint := React(Absorb(endpoint, es, codec.View()), r);
        case Completed =>
          var e := codec.io.PollWrite(bytes);
          es := [e];
          OneStep(codec.guard, endpoint, e);
          endpoint := Pass(endpoint, e);
          r := match e
            case Wrote(data) => PassedThrough(data)
            case WriteFailed(error) => WriteError(error)
            case _ => Quiet;
      }
    }
  }
}
