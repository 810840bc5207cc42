/** `ListenerSelectFuture`. */
module Listener {
  import opened Prelude
  import opened Frames
  import opened Messages
  import opened FrameDecoder
  import opened StreamIo
  import opened LengthDelimitedCodec
  import opened Endpoints
  import NegotiatedStream

  datatype ListenerState =
    | RecvMessage
    | SendMessage(message: Message, protocol: Option<Info>)
    | Flush(protocol: Option<Info>)
    | Done

  class ListenerSelect {
    const codec: LengthDelimited
    const protocols: seq<Info>      // the supported ones
    var state: ListenerState
    ghost var endpoint: Endpoint

    ghost predicate Valid()
      reads this, codec
    {
      && codec.Valid() && endpoint.codec == codec.View() && endpoint.supported == protocols
      && match state
         case RecvMessage => endpoint.phase == Receiving && codec.writeBuffer == []
         case SendMessage(message, protocol) =>
           endpoint.phase == Answering(message, protocol) && codec.writeBuffer == [] && codec.View().decoder == START
         case Flush(protocol) => endpoint.phase == Replying(protocol) && codec.View().decoder == START
         case Done => endpoint.phase.Final() || endpoint.phase.Completed?
    }

    constructor (io: Io, guard: nat, protocols: seq<Info>)
      requires 1 <= guard <= 4
      ensures Valid() && fresh(codec) && codec.io == io && codec.guard == guard
      ensures endpoint == NewListener(protocols) && state == RecvMessage
    {
      codec := new LengthDelimited(io, guard);
      this.protocols := Supported(protocols);
      state := RecvMessage;
      endpoint := NewListener(protocols);
    }

    /** State::RecvMessage */
    method Receive() returns (r: SelectPoll, ghost es: seq<Event>)
      requires Valid() && state.RecvMessage?
      modifies this, codec, codec.io
      ensures Valid() && codec.io.log == old(codec.io.log) + es && es != []
      ensures Run(codec.guard, old(endpoint), es) == Some(Settle(endpoint))
      ensures match es[|es| - 1]
        case Read(data) =>
          if data == []
          then r == Rejected(if codec.View().decoder.Partial() == [] then NoAgreement else Io(UnexpectedEof))
          else
            && endpoint.hist.received != []
            && var f := endpoint.hist.received[|endpoint.hist.received| - 1];
               (match Messages.Decode(f)
                case Err(error) => r == Rejected(error)
                case Ok(NotAvailable) => r == Rejected(InvalidMessage)
                case Ok(m) =>
                  && r == GoOn
                  && state == SendMessage(if Find(protocols, f).Some? then m else NotAvailable, Find(protocols, f)))
        case ReadFailed(error) => r == Rejected(Io(error))
        case ReadPending => r == NotYet
        case _ => false
      ensures match r
        case GoOn => state.SendMessage? && Frames() == old(Frames()) + 1
        case NotYet => state == old(state)
        case Rejected(error) => state.Done? && endpoint.phase == Failed(error)
        case Selected(_) => false
    {
      hide Feed, CodecStep, Step, Drive, Utf8, Header, Length, Frame, NameOf, StartsWithSlash, Queue, Find;
      var out;
      out, es := codec.PollNext();
      CallIsRun(codec.guard, endpoint, es, codec.View(), out);
      endpoint := React(Absorb(endpoint, es, codec.View()), out);
      state := Done;
      match out {
        case Quiet =>
          state := RecvMessage;
          return NotYet, es;
        case EndOfStream => return Rejected(NoAgreement), es;
        case ReadError(error) => return Rejected(Io(error)), es;
        case GotFrame(f) =>
          var msg := Messages.Decode(f);
          if msg.Err? {
            return Rejected(msg.error), es;
          }
          if msg.value.NotAvailable? {
            return Rejected(InvalidMessage), es;
          }
          var protocol := Find(protocols, msg.value.protocol);
          state := SendMessage(if protocol.Some? then msg.value else NotAvailable, protocol);
          r := GoOn;
      }
    }

    /** State::SendMessage: queue the answer. The buffer is empty here, so `poll_ready` does not wait. */
    method Send() returns (r: SelectPoll)
      requires Valid() && state.SendMessage?
      modifies this, codec`writeBuffer, codec.io
      ensures Valid() && endpoint == Settle(old(endpoint)) && codec.io.log == old(codec.io.log)
      ensures endpoint.hist.received == old(endpoint.hist.received) && codec.View().decoder == old(codec.View().decoder)
      ensures match r
        case GoOn => state == Flush(old(state).protocol)
        case Rejected(error) => state.Done? && endpoint.phase == Failed(error)
        case _ => false
    {
      var message, protocol := state.message, state.protocol;
      var blocked;
      ghost var es;
      blocked, es := codec.PollReady();
      assert blocked.None?;
      endpoint := Settle(endpoint);
      state := Done;
      var ok := codec.StartSend(Encode(message));
      if !ok {
        return Rejected(Io(InvalidData));
      }
      state := Flush(protocol);
      return GoOn;
    }

    /** `Negotiated::completed(io.into_inner())` */
    method Complete() returns (stream: NegotiatedStream.Negotiated)
      requires codec.Valid() && endpoint.codec == codec.View() && endpoint.phase.Completed? && codec.CanRelease()
      ensures fresh(stream) && stream.codec == codec && stream.Valid() && stream.endpoint == endpoint
      ensures stream.state.Completed?
    {
      stream := new NegotiatedStream.Negotiated.Complete(codec, endpoint);
    }

    /** State::Flush */
    method FlushAnswer() returns (r: SelectPoll, stream: NegotiatedStream.Negotiated?, ghost es: seq<Event>)
      requires Valid() && state.Flush?
      modifies this, codec`writeBuffer, codec.io
      ensures Valid() && codec.io.log == old(codec.io.log) + es && es != []
      ensures Run(codec.guard, old(endpoint), es) == Some(Settle(endpoint))
      ensures match es[|es| - 1]
        case Flushed => r == if old(state).protocol.Some? then Selected(old(state).protocol.value) else GoOn
        case Wrote(data) => data == [] && r == Rejected(Io(WriteZero))
        case WriteFailed(error) => r == Rejected(Io(error))
        case FlushFailed(error) => r == Rejected(Io(error))
        case WritePending => r == NotYet
        case FlushPending => r == NotYet
        case _ => false
      ensures match r
        case GoOn =>
          && stream == null && state.RecvMessage? && old(state).protocol.None?
          && Frames() == old(Frames())
        case NotYet => stream == null && state == old(state)
        case Rejected(error) => stream == null && state.Done? && endpoint.phase == Failed(error)
        case Selected(info) =>
          && old(state).protocol == Some(info) && state.Done? && endpoint.phase == Completed(info)
          && stream != null && fresh(stream) && stream.codec == codec && stream.Valid() && stream.endpoint == endpoint
          && stream.state.Completed?
    {
      hide Feed, CodecStep, Step, Drive, Utf8, Header, Length, Frame, NameOf, StartsWithSlash, Queue, Decode;
      hide React, Settle;
      var protocol := state.protocol;
      stream := null;
      var out;
      out, es := codec.PollFlush();
      CallIsRun(codec.guard, endpoint, es, codec.View(), out);
      WriteNoted(Absorb(endpoint, es, codec.View()), out);
      endpoint := React(Absorb(endpoint, es, codec.View()), out);
      state := Done;
      match out {
        case Quiet =>
          state := Flush(protocol);
          r := NotYet;
        case WriteError(error) => r := Rejected(Io(error));
        case FlushDone =>
          if protocol.Some? {
            stream := Complete();
            return Selected(protocol.value), stream, es;
          }
          state := RecvMessage;
          r := GoOn;
      }
    }

    /** The state that goes with a result, and the stream handed over. */
    ghost predicate Returned(r: SelectPoll, stream: NegotiatedStream.Negotiated?)
      reads this, stream, codec
      reads if stream != null then {stream.codec} else {}
    {
      match r
      case GoOn => !state.Done? && stream == null
      case NotYet => !state.Done? && stream == null
      case Rejected(error) => state.Done? && stream == null && endpoint.phase == Failed(error)
      case Selected(info) =>
        && state.Done? && endpoint.phase == Completed(info)
        && stream != null && stream.codec == codec && stream.Valid() && stream.endpoint == endpoint
        && stream.state.Completed?
    }

    /** How many frames have been received. */
    ghost function Frames(): (n: nat)
      reads this
    {
      |endpoint.hist.received|
    }

    /** Rounds until a frame can be read again. */
    function Lag(): (n: nat)
      reads this
      ensures n <= 2
    {
      match state
      case SendMessage(_, _) => 2
      case Flush(_) => 1
      case _ => 0
    }

    /** Three rounds go by for each frame. */
    ghost function Clock(): (n: int)
      reads this
      ensures 3 * Frames() - 2 <= n <= 3 * Frames()
    {
      3 * Frames() - Lag()
    }

    /** One round of the loop. */
    method Round() returns (r: SelectPoll, stream: NegotiatedStream.Negotiated?, ghost es: seq<Event>)
      requires Valid() && !state.Done?
      modifies this, codec, codec.io
      ensures Valid() && codec.io.log == old(codec.io.log) + es
      ensures Account(codec.guard, old(endpoint), es, endpoint, r)
      ensures es == [] ==>
        && r != NotYet && endpoint.hist.received == old(endpoint.hist.received)
        && endpoint.codec.decoder == old(endpoint.codec.decoder)
      ensures Returned(r, stream) && (stream != null ==> fresh(stream))
      ensures r.GoOn? ==> !state.Done? && stream == null && Clock() == old(Clock()) + 1
      ensures r.NotYet? ==> es != [] && es[|es| - 1].Waits()
    {
      hide Feed, CodecStep, Step, Drive, React, Queue, Run, Supported, Find, NameOf, Encode, Decode;
      stream := null;
      match state {
        case RecvMessage =>
          r, es := Receive();
        case SendMessage(_, _) =>
          r := Send();
          es := [];
          RunNothing(codec.guard, endpoint);
        case Flush(_) =>
          r, stream, es := FlushAnswer();
      }
    }

    /**
     `poll`: the run of the machine over the outcomes of its I/O calls. Unlike the dialer's, the loop
     has no bound of its own: a peer may propose for as long as it likes. `rounds` bounds this call; it
     is used up only if the peer keeps sending frames.
     */
    method Poll(rounds: nat) returns (r: SelectPoll, stream: NegotiatedStream.Negotiated?, ghost es: seq<Event>)
      requires Valid() && !state.Done?
      modifies this, codec, codec.io
      ensures Valid() && codec.io.log == old(codec.io.log) + es
      ensures Account(codec.guard, old(endpoint), es, endpoint, r)
      ensures Returned(r, stream) && (stream != null ==> fresh(stream))
      ensures r.GoOn? ==> rounds <= 3 * (Frames() - old(Frames())) + 2
      ensures r.NotYet? ==> es != [] && es[|es| - 1].Waits()
    {
      hide Account, Reports, Settle, OnMessage, HandOver, Clock, Lag, Frames;
      hide Feed, CodecStep, Step, Drive, React, Queue, Run, Supported, Find, NameOf, Encode, Decode;
      hide Header, Utf8;
      es := [];
      NoRounds(codec.guard, endpoint);
      ghost var clock := Clock();
      var left := rounds;
      while true
        invariant Valid() && codec.io.log == old(codec.io.log) + es
        invariant Account(codec.guard, old(endpoint), es, endpoint, GoOn)
        invariant !state.Done?
        invariant rounds - left == Clock() - clock
        decreases left
      {
        if left == 0 {
          return GoOn, null, es;
        }
        left := left - 1;
        ghost var before := endpoint;
        ghost var events;
        r, stream, events := Round();
        MoreRounds(codec.guard, old(endpoint), es, before, events, endpoint, r);
        es := es + events;
        if !r.GoOn? {
          return r, stream, es;
        }
      }
    }
  }
}
