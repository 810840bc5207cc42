/**
 One side of a negotiation: dialer, listener, and the `Negotiated` stream they hand to the
 application, as one machine that moves on the outcome of each I/O call.

 The classes in `Dialer.dfy`, `Listener.dfy` and `Negotiated.dfy` are proved to make exactly these
 moves; `LocalInvariants.dfy` and `Session.dfy` are about the moves.
 */
module Endpoints {
  import opened Prelude
  import opened Frames
  import opened Messages
  import opened FrameDecoder
  import opened StreamIo
  import opened LengthDelimitedCodec

  /** How far poll_negotiated has got before it may read: nothing may be read while Unflushed. */
  datatype FlushStatus = Unflushed | FlushedAll | Tolerated

  datatype Phase =
    // dialer
    | Proposing(protocols: seq<Info>)                    // Initial, SendProtocol
    | Flushing(proposal: Info, protocols: seq<Info>)     // FlushProtocol
    | Awaiting(proposal: Info, protocols: seq<Info>)     // AwaitProtocol
    | Expecting(proposal: Info, status: FlushStatus)     // Negotiated in Expecting
    // listener
    | Receiving                                          // RecvMessage
    | Answering(message: Message, choice: Option<Info>)  // SendMessage
    | Replying(choice: Option<Info>)                     // Flush
    // both
    | Completed(info: Info)
    | Failed(error: NegotiationError)
    | Panicked                                           // an assertion of into_inner failed
  {
    /** The phase waits for no I/O: the poll loop goes on by itself. */
    predicate Transient() { Proposing? || Answering? }
    predicate Final() { Failed? || Panicked? }
  }

  /** What has passed through this side so far; no code reads it. */
  datatype History = History(
    out: seq<Byte>,           // accepted by the stream
    flushed: nat,             // how much of it was flushed for certain
    inp: seq<Byte>,           // delivered by the stream
    sent: seq<Payload>,       // frames queued
    received: seq<Payload>,   // frames returned by the decoder
    appOut: seq<Byte>,        // application bytes accepted
    appIn: seq<Byte>          // application bytes delivered
  )

  datatype Endpoint = Endpoint(phase: Phase, codec: Codec, supported: seq<Info>, hist: History)

  /** What a round of a select future's poll loop comes to. GoOn is another round. */
  datatype SelectPoll = GoOn | NotYet | Selected(info: Info) | Rejected(error: NegotiationError)

  /**
   What a select future makes of the last outcome of its I/O calls: an error of the stream is returned
   as it is, and so is that of a frame that is no message; the end of the stream is
   `NegotiationError::Failed` between frames. After a message or a flush it does not wait.
   */
  predicate Reports(r: SelectPoll, last: Event, received: seq<Payload>, begun: seq<Byte>)
  {
    match last
    case Read(data) =>
      if data == [] then r == Rejected(if begun == [] then NoAgreement else Io(UnexpectedEof))
      else
        && received != []
        && (match Messages.Decode(received[|received| - 1])
            case Err(error) => r == Rejected(error)
            case Ok(_) => r != NotYet)
    case ReadFailed(error) => r == Rejected(Io(error))
    case Wrote(data) => data == [] && r == Rejected(Io(WriteZero))
    case WriteFailed(error) => r == Rejected(Io(error))
    case FlushFailed(error) => r == Rejected(Io(error))
    case Flushed => r != NotYet
    case _ => r == NotYet
  }

  const NO_HISTORY := History([], 0, [], [], [], [], [])

  function NewDialer(protocols: seq<Info>): (ep: Endpoint)
  {
    Endpoint(Proposing(protocols), Codec(START, []), [], NO_HISTORY)
  }

  function NewListener(protocols: seq<Info>): (ep: Endpoint)
  {
    Endpoint(Receiving, Codec(START, []), Supported(protocols), NO_HISTORY)
  }

  // ---------------------------------------------------------------------------------------------
  // Moves
  // ---------------------------------------------------------------------------------------------

  function Record(h: History, e: Event): (h': History)
  {
    match e
    case Read(data) => h.(inp := h.inp + data)
    case Wrote(data) => h.(out := h.out + data)
    case Flushed => h.(flushed := |h.out|)
    case _ => h
  }

  /** Queues one frame, or fails with `start_send`'s error. */
  function Queue(ep: Endpoint, payload: seq<Byte>, next: Phase): (ep': Endpoint)
    ensures ep'.codec.decoder == ep.codec.decoder && ep'.phase in {next, Failed(Io(InvalidData))}
  {
    if |payload| > MAX_FRAME_SIZE then ep.(phase := Failed(Io(InvalidData)))
    else ep.(
      phase := next,
      codec := ep.codec.(writeBuffer := ep.codec.writeBuffer + Frame(payload)),
      hist := ep.hist.(sent := ep.hist.sent + [payload]))
  }

  /** Goes on to the next phase that waits for I/O. The last proposal is handed over unflushed. */
  function Settle(ep: Endpoint): (ep': Endpoint)
    ensures !ep'.phase.Transient() && ep'.codec.decoder == ep.codec.decoder
  {
    match ep.phase
    case Proposing(protocols) =>
      if protocols == [] then ep.(phase := Failed(NoAgreement))
      else
        var info, rest := protocols[0], protocols[1..];
        if !StartsWithSlash(NameOf(info)) then ep.(phase := Failed(InvalidProtocol))
        else Queue(ep, NameOf(info), if rest != [] then Flushing(info, rest) else Expecting(info, Unflushed))
    case Answering(message, choice) =>
      Queue(ep, Encode(message), Replying(choice))
    case _ => ep
  }

  /** `into_inner` and `Negotiated::completed`. */
  function HandOver(ep: Endpoint, info: Info): (ep': Endpoint)
    ensures ep'.codec == ep.codec && ep'.hist == ep.hist
  {
    if ep.codec.decoder.buffer == [] && ep.codec.writeBuffer == [] then ep.(phase := Completed(info))
    else ep.(phase := Panicked)
  }

  /** The listener's answer to a message. */
  function Answer(supported: seq<Info>, m: Message): (phase: Phase)
  {
    match m
    case NotAvailable => Failed(InvalidMessage)
    case Propose(p) =>
      match Find(supported, p)
      case Some(info) => Answering(Propose(p), Some(info))
      case None => Answering(NotAvailable, None)
  }

  /** What the code does with a decoded message. */
  function OnMessage(ep: Endpoint, m: Message): (ep': Endpoint)
    ensures ep'.codec == ep.codec && ep'.hist == ep.hist
  {
    match ep.phase
    case Awaiting(proposal, protocols) =>
      if m.Propose? && m.protocol == NameOf(proposal) then HandOver(ep, proposal)
      else ep.(phase := Proposing(protocols))
    case Expecting(proposal, _) =>
      if m.Propose? && m.protocol == NameOf(proposal) then HandOver(ep, proposal)
      else ep.(phase := Failed(NoAgreement))
    case Receiving => ep.(phase := Answer(ep.supported, m))
    case _ => ep
  }

  /** What the code does with the outcome of a codec call. */
  function React(ep: Endpoint, out: Outcome): (ep': Endpoint)
    ensures ep'.codec == ep.codec
  {
    match out
    case Quiet => ep
    case GotFrame(f) =>
      var ep1 := ep.(hist := ep.hist.(received := ep.hist.received + [f]));
      (match Messages.Decode(f)
       case Ok(m) => OnMessage(ep1, m)
       case Err(error) => ep1.(phase := Failed(error)))
    case EndOfStream =>
      ep.(phase := Failed(if ep.phase.Expecting? then Io(UnexpectedEof) else NoAgreement))
    case ReadError(error) => ep.(phase := Failed(Io(error)))
    case WriteError(error) =>
      if ep.phase.Expecting? then
        if error == WriteZero then ep.(phase := ep.phase.(status := Tolerated)) else ep
      else ep.(phase := Failed(Io(error)))
    case FlushDone =>
      (match ep.phase
       case Flushing(proposal, protocols) => ep.(phase := Awaiting(proposal, protocols))
       case Expecting(proposal, _) => ep.(phase := Expecting(proposal, FlushedAll))
       case Replying(Some(info)) => HandOver(ep, info)
       case Replying(None) => ep.(phase := Receiving)
       case _ => ep)
    case PassedThrough(data) =>
      if ep.phase.Expecting? then
        ep.(phase := ep.phase.(status := Unflushed), hist := ep.hist.(appOut := ep.hist.appOut + data))
      else ep
  }

  /** The I/O calls the code makes in a phase. */
  predicate Permits(phase: Phase, e: Event)
  {
    match phase
    case Flushing(_, _) => !e.OfRead()
    case Replying(_) => !e.OfRead()
    case Awaiting(_, _) => e.OfRead()
    case Receiving => e.OfRead()
    case Expecting(_, status) => e.OfRead() ==> status != Unflushed
    case _ => false
  }

  /** A completed stream is the raw stream: every call goes through to it. */
  function Pass(ep: Endpoint, e: Event): (ep': Endpoint)
  {
    var h := Record(ep.hist, e);
    match e
    case Read(data) => ep.(hist := h.(appIn := h.appIn + data))
    case Wrote(data) => ep.(hist := h.(appOut := h.appOut + data))
    case _ => ep.(hist := h)
  }

  /** One I/O outcome and all that follows up to the next I/O call; None if the call is not made. */
  function Step(guard: nat, ep: Endpoint, e: Event): (r: Option<Endpoint>)
    requires 1 <= guard <= 4 && ep.codec.decoder.Valid(guard)
    ensures r.Some? ==> r.value.codec.decoder.Valid(guard) && !r.value.phase.Transient()
  {
    if ep.phase.Completed? then Some(Pass(ep, e))
    else if !Permits(ep.phase, e) then None
    else
      match CodecStep(guard, ep.codec, e)
      case Illegal => None
      case Stepped(c, out) =>
        if out.PassedThrough? && !ep.phase.Expecting? then None
        else Some(Settle(React(ep.(codec := c, hist := Record(ep.hist, e)), out)))
  }

  /** All I/O outcomes so far. */
  function Run(guard: nat, ep: Endpoint, es: seq<Event>): (r: Option<Endpoint>)
    requires 1 <= guard <= 4 && ep.codec.decoder.Valid(guard)
    ensures r.Some? ==> r.value.codec.decoder.Valid(guard)
  {
    if es == [] then Some(ep)
    else
      match Run(guard, ep, es[..|es| - 1])
      case None => None
      case Some(before) => Step(guard, before, es[|es| - 1])
  }

  // ---------------------------------------------------------------------------------------------
  // Runs compose, and a codec call is a run
  // ---------------------------------------------------------------------------------------------

  lemma {:induction false} RunConcat(guard: nat, ep: Endpoint, a: seq<Event>, mid: Endpoint, b: seq<Event>)
    requires 1 <= guard <= 4 && ep.codec.decoder.Valid(guard)
    requires Run(guard, ep, a) == Some(mid)
    ensures Run(guard, ep, a + b) == Run(guard, mid, b)
    decreases |b|
  {
    if b == [] {
      assert a + b == a;
    } else {
      var init := b[..|b| - 1];
      RunConcat(guard, ep, a, mid, init);
      assert (a + b)[..|a + b| - 1] == a + init;
    }
  }

  function RecordAll(h: History, es: seq<Event>): (h': History)
    ensures h'.sent == h.sent && h'.received == h.received && h'.appOut == h.appOut && h'.appIn == h.appIn
  {
    if es == [] then h else Record(RecordAll(h, es[..|es| - 1]), es[|es| - 1])
  }

  /** The codec has made a call's I/O calls, its user has not yet looked at the outcome. */
  function Absorb(ep: Endpoint, es: seq<Event>, c: Codec): (ep': Endpoint)
  {
    ep.(codec := c, hist := RecordAll(ep.hist, es))
  }

  lemma {:induction false} CallIsRun(guard: nat, ep: Endpoint, es: seq<Event>, c: Codec, out: Outcome)
    requires 1 <= guard <= 4 && ep.codec.decoder.Valid(guard)
    requires Drive(guard, ep.codec, es) == Stepped(c, out)
    requires forall e | e in es :: Permits(ep.phase, e)
    requires !ep.phase.Transient() && !ep.phase.Final() && !ep.phase.Completed?
    requires out.PassedThrough? ==> ep.phase.Expecting?
    ensures Run(guard, ep, es) == Some(Settle(React(Absorb(ep, es, c), out)))
    decreases |es|
  {
    if es != [] {
      var init, e := es[..|es| - 1], es[|es| - 1];
      var m := Drive(guard, ep.codec, init).next;
      CallIsRun(guard, ep, init, m, Quiet);
      assert Permits(ep.phase, e);
      var mid := Absorb(ep, init, m);
      assert Settle(React(mid, Quiet)) == mid;
      assert mid.(codec := c, hist := Record(mid.hist, e)) == Absorb(ep, es, c);
    }
  }

  /** What looking at the outcome of a write or flush comes to, in the phases that make such calls. */
  lemma WriteNoted(ep: Endpoint, out: Outcome)
    requires ep.phase.Flushing? || ep.phase.Expecting? || ep.phase.Replying?
    requires out.Quiet? || out.WriteError? || out.FlushDone? || (out.PassedThrough? && ep.phase.Expecting?)
    ensures var r := React(ep, out);
      && Settle(r) == r && r.codec == ep.codec && r.supported == ep.supported
      && r.hist == ep.hist.(appOut := ep.hist.appOut + (if out.PassedThrough? then out.data else []))
      && (out.Quiet? ==> r.phase == ep.phase)
      && (ep.phase.Expecting? ==>
            && r.phase.Expecting? && r.phase.proposal == ep.phase.proposal
            && (out.FlushDone? ==> r.phase.status.FlushedAll?)
            && (out == WriteError(WriteZero) ==> r.phase.status.Tolerated?))
      && (!ep.phase.Expecting? && out.WriteError? ==> r.phase == Failed(Io(out.error)))
      && (ep.phase.Flushing? && out.FlushDone? ==> r.phase == Awaiting(ep.phase.proposal, ep.phase.protocols))
      && (ep.phase.Replying? && out.FlushDone? && ep.codec == Codec(START, []) ==>
            r.phase == if ep.phase.choice.Some? then Completed(ep.phase.choice.value) else Receiving)
  {
    hide OnMessage, Decode;
    assert ep.hist.appOut + [] == ep.hist.appOut;
  }

  lemma OneStep(guard: nat, ep: Endpoint, e: Event)
    requires 1 <= guard <= 4 && ep.codec.decoder.Valid(guard)
    ensures Run(guard, ep, [e]) == Step(guard, ep, e)
    ensures ep.phase.Completed? ==> Run(guard, ep, [e]) == Some(Pass(ep, e))
  {
    var es := [e];
    assert es[..0] == [];
  }

  lemma RunNothing(guard: nat, ep: Endpoint)
    requires 1 <= guard <= 4 && ep.codec.decoder.Valid(guard)
    ensures Run(guard, ep, []) == Some(ep)
  {
  }

  /** One more round of a poll loop. */
  lemma Extend(guard: nat, start: Endpoint, es: seq<Event>, before: Endpoint, events: seq<Event>, after: Endpoint)
    requires 1 <= guard <= 4 && start.codec.decoder.Valid(guard)
    requires Run(guard, start, es) == Some(Settle(before))
    requires Run(guard, Settle(before), events) == Some(Settle(after))
    ensures Run(guard, start, es + events) == Some(Settle(after))
  {
    RunConcat(guard, start, es, Settle(before), events);
  }

  /** A poll loop so far is the run of the machine over its I/O, and `r` reports the last outcome. */
  predicate Account(guard: nat, start: Endpoint, es: seq<Event>, now: Endpoint, r: SelectPoll)
    requires 1 <= guard <= 4 && start.codec.decoder.Valid(guard) && now.codec.decoder.Valid(guard)
  {
    && Run(guard, Settle(start), es) == Some(Settle(now))
    && (es != [] ==> Reports(r, es[|es| - 1], now.hist.received, now.codec.decoder.Partial()))
  }

  lemma NoRounds(guard: nat, start: Endpoint)
    requires 1 <= guard <= 4 && start.codec.decoder.Valid(guard)
    ensures Account(guard, start, [], start, GoOn)
  {
  }

  /** One more round, perhaps without I/O. */
  lemma MoreRounds(guard: nat, start: Endpoint, es: seq<Event>, before: Endpoint, events: seq<Event>,
        now: Endpoint, r: SelectPoll)
    requires 1 <= guard <= 4 && start.codec.decoder.Valid(guard)
    requires before.codec.decoder.Valid(guard) && now.codec.decoder.Valid(guard)
    requires Account(guard, start, es, before, GoOn) && Account(guard, before, events, now, r)
    requires events == [] ==>
      r != NotYet && now.hist.received == before.hist.received && now.codec.decoder == before.codec.decoder
    ensures Account(guard, start, es + events, now, r)
  {
    hide Decode, Run, Settle;
    Extend(guard, Settle(start), es, before, events, now);
    if events == [] {
      assert es + events == es;
    }
  }
}
