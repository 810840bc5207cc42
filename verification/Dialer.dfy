/** `DialerSelectFuture`. */
module Dialer {
  import opened Prelude
  import opened Frames
  import opened Messages
  import opened FrameDecoder
  import opened StreamIo
  import opened LengthDelimitedCodec
  import opened Endpoints
  import NegotiatedStream

  datatype DialerState =
    | Initial
    | SendProtocol(protocol: Info)
    | FlushProtocol(protocol: Info)
    | AwaitProtocol(protocol: Info)
    | Done

  class DialerSelect {
    const codec: LengthDelimited
    var protocols: seq<Info>        // what the peekable iterator still holds
    var state: DialerState
    ghost var endpoint: Endpoint

    ghost predicate Valid()
      reads this, codec
    {
      && codec.Valid() && endpoint.codec == codec.View()
      && match state
         case Initial => endpoint.phase == Proposing(protocols) && codec.writeBuffer == []
         case SendProtocol(p) => endpoint.phase == Proposing([p] + protocols) && codec.writeBuffer == []
         case FlushProtocol(p) => endpoint.phase == Flushing(p, protocols) && protocols != []
         case AwaitProtocol(p) =>
           && endpoint.phase == Awaiting(p, protocols) && protocols != []
           && codec.writeBuffer == []
         case Done => endpoint.phase.Final() || endpoint.phase.Expecting? || endpoint.phase.Completed?
    }

    constructor (io: Io, guard: nat, protocols: seq<Info>)
      requires 1 <= guard <= 4
      ensures Valid() && fresh(codec) && codec.io == io && codec.guard == guard
      ensures endpoint == NewDialer(protocols) && state == Initial
    {
      codec := new LengthDelimited(io, guard);
      this.protocols := protocols;
      state := Initial;
      endpoint := NewDialer(protocols);
    }

    /** State::Initial: take the next protocol. The buffer is empty here, so `poll_ready` does not wait. */
    method TakeNext() returns (r: SelectPoll)
      requires Valid() && state.Initial?
      modifies this, codec`writeBuffer, codec.io
      ensures Valid() && Settle(endpoint) == Settle(old(endpoint)) && codec.io.log == old(codec.io.log)
      ensures endpoint.hist == old(endpoint.hist) && codec.View().decoder == old(codec.View().decoder)
      ensures if old(protocols) == []
        then r == Rejected(NoAgreement) && state.Done? && endpoint.phase == Failed(NoAgreement)
        else r.GoOn? && state == SendProtocol(old(protocols)[0]) && protocols == old(protocols)[1..]
    {
      var blocked;
      ghost var es;
      blocked, es := codec.PollReady();
      assert blocked.None?;
      state := Done;
      if protocols == [] {
        endpoint := Settle(endpoint);
        return Rejected(NoAgreement);
      }
      state := SendProtocol(protocols[0]);
      protocols := protocols[1..];
      return GoOn;
    }

    /** State::SendProtocol: queue the proposal; the last one is handed over with the stream at once. */
    method Send() returns (r: SelectPoll, stream: NegotiatedStream.Negotiated?)
      requires Valid() && state.SendProtocol?
      modifies this, codec`writeBuffer, codec.io
      ensures Valid() && endpoint == Settle(old(endpoint)) && codec.io.log == old(codec.io.log)
      ensures protocols == old(protocols)
      ensures endpoint.hist.received == old(endpoint.hist.received) && codec.View().decoder == old(codec.View().decoder)
      ensures match r
        case GoOn => state == FlushProtocol(old(state).protocol) && stream == null
        case NotYet => false
        case Rejected(error) => state.Done? && endpoint.phase == Failed(error) && stream == null
        case Selected(info) =>
          && state.Done? && endpoint.phase == Expecting(info, Unflushed)
          && stream != null && fresh(stream) && stream.codec == codec && stream.Valid() && stream.endpoint == endpoint
          && stream.state.Expecting?
    {
      var protocol := state.protocol;
      stream := null;
      var blocked;
      ghost var es;
      blocked, es := codec.PollReady();
      assert blocked.None?;
      endpoint := Settle(endpoint);
      state := Done;
      if !StartsWithSlash(NameOf(protocol)) {
        return Rejected(InvalidProtocol), null;
      }
      var p := NameOf(protocol);
      var ok := codec.StartSend(Encode(Propose(p)));
      if !ok {
        return Rejected(Io(InvalidData)), null;
      }
      if protocols != [] {
        state := FlushProtocol(protocol);
        return GoOn, null;
      }
      stream := new NegotiatedStream.Negotiated.Expect(codec, p, endpoint);
      return Selected(protocol), stream;
    }

    /** State::FlushProtocol */
    method Flush() returns (r: SelectPoll, ghost es: seq<Event>)
      requires Valid() && state.FlushProtocol?
      modifies this, codec`writeBuffer, codec.io
      ensures Valid() && codec.io.log == old(codec.io.log) + es && es != []
      ensures Run(codec.guard, old(endpoint), es) == Some(endpoint)
      ensures protocols == old(protocols)
      ensures match es[|es| - 1]
        case Flushed => r == GoOn
        case Wrote(data) => data == [] && r == Rejected(Io(WriteZero))
        case WriteFailed(error) => r == Rejected(Io(error))
        case FlushFailed(error) => r == Rejected(Io(error))
        case WritePending => r == NotYet
        case FlushPending => r == NotYet
        case _ => false
      ensures match r
        case GoOn => state == AwaitProtocol(old(state).protocol)
        case NotYet => state == old(state)
        case Rejected(error) => state.Done? && endpoint.phase == Failed(error)
        case Selected(_) => false
    {
      hide Feed, CodecStep, Step, Drive, Utf8, Header, Length, Frame, NameOf, Decode, StartsWithSlash, Queue;
      hide React, Settle;
      var protocol := state.protocol;
      var out;
      out, es := codec.PollFlush();
      CallIsRun(codec.guard, endpoint, es, codec.View(), out);
      WriteNoted(Absorb(endpoint, es, codec.View()), out);
      endpoint := React(Absorb(endpoint, es, codec.View()), out);
      state := Done;
      match out {
        case Quiet => state := FlushProtocol(protocol); r := NotYet;
        case WriteError(error) => r := Rejected(Io(error));
        case FlushDone => state := AwaitProtocol(protocol); r := GoOn;
      }
    }

    /** `Negotiated::completed(io.into_inner())` */
    method Complete() returns (stream: NegotiatedStream.Negotiated)
      requires codec.Valid() && endpoint.codec == codec.View() && endpoint.phase.Completed? && codec.CanRelease()
      ensures fresh(stream) && stream.codec == codec && stream.Valid() && stream.endpoint == endpoint
      ensures stream.state.Completed?
    {
      stream := new NegotiatedStream.Negotiated.Complete(codec, endpoint);
    }

    /** What the code does with the outcome of waiting for an answer. */
    method Conclude(out: Outcome, protocol: Info) returns (r: SelectPoll, stream: NegotiatedStream.Negotiated?)
      requires codec.Valid() && endpoint.codec == codec.View() && state.Done? && codec.writeBuffer == []
      requires endpoint.phase == Awaiting(protocol, protocols) && protocols != []
      requires out.Quiet? || out.GotFrame? || out.EndOfStream? || out.ReadError?
      requires out.GotFrame? ==> codec.View().decoder == START
      modifies this
      ensures Valid() && Settle(endpoint) == Settle(React(old(endpoint), out)) && codec.View() == old(codec.View())
      ensures match out
        case Quiet => r == NotYet && state == AwaitProtocol(protocol) && endpoint.hist == old(endpoint.hist)
        case EndOfStream => r == Rejected(NoAgreement)
        case ReadError(error) => r == Rejected(Io(error))
        case GotFrame(f) =>
          && endpoint.hist.received == old(endpoint.hist.received) + [f]
          && (match Messages.Decode(f)
              case Err(error) => r == Rejected(error)
              case Ok(m) =>
                if m.Propose? && m.protocol == NameOf(protocol) then r == Selected(protocol) else r == GoOn)
        case _ => false
      ensures match r
        case GoOn =>
          && stream == null
          && ((state.Initial? && protocols == old(protocols))
              || (state == SendProtocol(old(protocols)[0]) && protocols == old(protocols)[1..]))
        case NotYet => stream == null && protocols == old(protocols)
        case Rejected(error) => stream == null && state.Done? && endpoint.phase == Failed(error)
        case Selected(info) =>
          && state.Done? && endpoint.phase == Completed(info)
          && stream != null && fresh(stream) && stream.codec == codec && stream.Valid() && stream.endpoint == endpoint
          && stream.state.Completed?
    {
      hide Utf8, Header, Length, Frame, NameOf, Decode, StartsWithSlash, Queue;
      stream := null;
      endpoint := React(endpoint, out);
      match out {
        case Quiet =>
          state := AwaitProtocol(protocol);
          return NotYet, null;
        case EndOfStream => return Rejected(NoAgreement), null;
        case ReadError(error) => return Rejected(Io(error)), null;
        case GotFrame(f) =>
          var msg := Messages.Decode(f);
          if msg.Err? {
            return Rejected(msg.error), null;
          }
          match msg.value {
            case NotAvailable =>
              state := SendProtocol(protocols[0]);
              protocols := protocols[1..];
            case Propose(p) =>
              if p == NameOf(protocol) {
                stream := Complete();
                return Selected(protocol), stream;
              }
              state := Initial;
          }
          r := GoOn;
      }
    }

    /** State::AwaitProtocol */
    method AwaitAnswer() returns (r: SelectPoll, stream: NegotiatedStream.Negotiated?, ghost es: seq<Event>)
      requires Valid() && state.AwaitProtocol?
      modifies this, codec, codec.io
      ensures Valid() && codec.io.log == old(codec.io.log) + es && es != []
      ensures Run(codec.guard, old(endpoint), es) == Some(Settle(endpoint))
      ensures match es[|es| - 1]
        case Read(data) =>
          if data == []
          then r == Rejected(if codec.View().decoder.Partial() == [] then NoAgreement else Io(UnexpectedEof))
          else
            && endpoint.hist.received != []
            && (match Messages.Decode(endpoint.hist.received[|endpoint.hist.received| - 1])
                case Err(error) => r == Rejected(error)
                case Ok(m) =>
                  if m.Propose? && m.protocol == NameOf(old(state).protocol) then r == Selected(old(state).protocol)
                  else r == GoOn)
        case ReadFailed(error) => r == Rejected(Io(error))
        case ReadPending => r == NotYet
        case _ => false
      ensures match r
        case GoOn =>
          && stream == null
          && ((state.Initial? && protocols == old(protocols))
              || (state == SendProtocol(old(protocols)[0]) && protocols == old(protocols)[1..]))
        case NotYet => stream == null && state == old(state) && protocols == old(protocols)
        case Rejected(error) => stream == null && state.Done? && endpoint.phase == Failed(error)
        case Selected(info) =>
          && state.Done? && endpoint.phase == Completed(info)
          && stream != null && fresh(stream) && stream.codec == codec && stream.Valid() && stream.endpoint == endpoint
          && stream.state.Completed?
    {
      hide Feed, CodecStep, Step, Drive, React, Settle, Decode, Utf8, NameOf, Header;
      var protocol := state.protocol;
      ghost var before := endpoint;
      var out;
      out, es := codec.PollNext();
      CallIsRun(codec.guard, before, es, codec.View(), out);
      state := Done;
      endpoint := Absorb(before, es, codec.View());
      r, stream := Conclude(out, protocol);
    }

    /** Proposals not yet queued. */
    function Left(): (n: nat)
      reads this
    {
      |protocols| + (if state.SendProtocol? then 1 else 0)
    }

    function Rank(): (n: nat)
      reads this
    {
      match state
      case FlushProtocol(_) => 4
      case AwaitProtocol(_) => 3
      case Initial => 2
      case SendProtocol(_) => 1
      case Done => 0
    }

    /** The state that goes with a result, and the stream handed over. */
    ghost predicate Returned(r: SelectPoll, stream: NegotiatedStream.Negotiated?)
      reads this, stream, codec
      reads if stream != null then {stream.codec} else {}
    {
      match r
      case GoOn => !state.Done? && stream == null
      case NotYet => !state.Done? && stream == null
      case Rejected(error) => state.Done? && stream == null && endpoint.phase == Failed(error)
      case Selected(info) =>
        && state.Done? && (endpoint.phase == Expecting(info, Unflushed) || endpoint.phase == Completed(info))
        && stream != null && stream.codec == codec && stream.Valid() && stream.endpoint == endpoint
        && !stream.state.Invalid?
    }

    /** One round of the loop. */
    method Round() returns (r: SelectPoll, stream: NegotiatedStream.Negotiated?, ghost es: seq<Event>)
      requires Valid() && !state.Done?
      modifies this, codec, codec.io
      ensures Valid() && codec.io.log == old(codec.io.log) + es
      ensures Account(codec.guard, old(endpoint), es, endpoint, r)
      ensures es == [] ==>
        && r != NotYet && endpoint.hist.received == old(endpoint.hist.received)
        && endpoint.codec.decoder == old(endpoint.codec.decoder)
      ensures Returned(r, stream) && (stream != null ==> fresh(stream))
      ensures r.GoOn? ==>
        && !state.Done?
        && (Left() < old(Left()) || (Left() == old(Left()) && Rank() < old(Rank())))
      ensures r.NotYet? ==> es != [] && es[|es| - 1].Waits()
    {
      hide Feed, CodecStep, Step, Drive, React, Queue, Run, NameOf, Encode, Decode, Utf8, Header;
      stream := null;
      match state {
        case Initial =>
          r := TakeNext();
          es := [];
          RunNothing(codec.guard, Settle(endpoint));
        case SendProtocol(_) =>
          r, stream := Send();
          es := [];
          RunNothing(codec.guard, endpoint);
        case FlushProtocol(_) =>
          r, es := Flush();
        case AwaitProtocol(_) =>
          r, stream, es := AwaitAnswer();
      }
    }

    /**
     `poll`. Whatever the peer answers, the loop ends: each round has fewer proposals left or a lower
     rank. What it does is the run of the machine over the outcomes of its I/O calls.
     */
    method Poll() returns (r: SelectPoll, stream: NegotiatedStream.Negotiated?, ghost es: seq<Event>)
      requires Valid() && !state.Done?
      modifies this, codec, codec.io
      ensures Valid() && codec.io.log == old(codec.io.log) + es
      ensures Account(codec.guard, old(endpoint), es, endpoint, r)
      ensures !r.GoOn? && Returned(r, stream) && (stream != null ==> fresh(stream))
      ensures r.NotYet? ==> es != [] && es[|es| - 1].Waits()
    {
      hide Account, Reports, Settle, OnMessage, HandOver, Returned;
      hide Feed, CodecStep, Step, Drive, React, Queue, Run, NameOf, Encode, Decode, Utf8, Header;
      es := [];
      NoRounds(codec.guard, endpoint);
      while true
        invariant Valid() && !state.Done?
        invariant codec.io.log == old(codec.io.log) + es
        invariant Account(codec.guard, old(endpoint), es, endpoint, GoOn)
        decreases Left(), Rank()
      {
        ghost var before := endpoint;
        ghost var events;
        r, stream, events := Round();
        MoreRounds(codec.guard, old(endpoint), es, before, events, endpoint, r);
        es := es + events;
        if !r.GoOn? {
          return r, stream, es;
        }
      }
    }
  }
}
