/**
 What one side keeps against any peer: invariants of every run of the machine of `Endpoint.dfy`,
 whatever the guard and whatever the reads bring. Only the account of the bytes read needs reads that
 parse no short header.
 */
module LocalInvariants {
  import opened Prelude
  import opened Frames
  import opened Messages
  import opened FrameDecoder
  import opened StreamIo
  import opened LengthDelimitedCodec
  import opened Endpoints

  // ---------------------------------------------------------------------------------------------
  // Bytes written
  // ---------------------------------------------------------------------------------------------

  /**
   Conservation of what is written: accepted bytes and the write buffer are the frames in send order
   and then application bytes. Nothing of a negotiation is left once it is completed.
   */
  predicate WriteSide(guard: nat, ep: Endpoint)
  {
    && 1 <= guard <= 4 && ep.codec.decoder.Valid(guard)
    && ep.hist.out + ep.codec.writeBuffer == Encoded(ep.hist.sent) + ep.hist.appOut
    && (ep.codec.writeBuffer != [] ==> ep.hist.appOut == [])
    && (ep.hist.appIn != [] ==> ep.phase.Completed?)
    && (ep.hist.appOut != [] ==> ep.phase.Expecting? || ep.phase.Completed? || ep.phase.Final())
    && (ep.phase.Replying? || ep.phase.Answering? ==> ep.codec.decoder == START)
    && (ep.phase.Completed? ==> ep.codec == Codec(START, []))
    && ep.hist.flushed <= |ep.hist.out|
  }

  /** Before an outcome is looked at: `passed` was let through. */
  predicate WriteBetween(guard: nat, ep: Endpoint, passed: seq<Byte>)
  {
    && 1 <= guard <= 4 && ep.codec.decoder.Valid(guard)
    && ep.hist.out + ep.codec.writeBuffer == Encoded(ep.hist.sent) + (ep.hist.appOut + passed)
    && (ep.codec.writeBuffer != [] ==> ep.hist.appOut + passed == [])
    && ep.hist.appIn == []
    && ep.hist.flushed <= |ep.hist.out|
  }

  /** After the I/O call, before the outcome is looked at. */
  function Observed(guard: nat, before: Endpoint, e: Event): (ep: Endpoint)
    requires 1 <= guard <= 4 && before.codec.decoder.Valid(guard)
    requires CodecStep(guard, before.codec, e).Stepped?
    ensures ep.phase == before.phase && ep.supported == before.supported
    ensures ep.codec == CodecStep(guard, before.codec, e).next
  {
    before.(codec := CodecStep(guard, before.codec, e).next, hist := Record(before.hist, e))
  }

  lemma WrittenKeeps(guard: nat, ep: Endpoint, data: seq<Byte>)
    requires WriteSide(guard, ep) && (ep.codec.writeBuffer == [] || data <= ep.codec.writeBuffer)
    ensures var h, buffer := ep.hist, ep.codec.writeBuffer;
      if buffer == [] then (h.out + data) + [] == Encoded(h.sent) + (h.appOut + data)
      else (h.out + data) + buffer[|data|..] == Encoded(h.sent) + (h.appOut + [])
  {
    hide Header, Length, Encoded;
    var h, buffer := ep.hist, ep.codec.writeBuffer;
    if buffer == [] {
      assert h.out + [] == h.out;
      Assoc(Encoded(h.sent), h.appOut, data);
      assert (h.out + data) + [] == h.out + data;
    } else {
      assert h.appOut + [] == h.appOut;
      assert buffer == data + buffer[|data|..];
      Assoc(h.out, data, buffer[|data|..]);
    }
  }

  lemma CodecKeepsWriteSide(guard: nat, ep: Endpoint, e: Event)
    requires WriteSide(guard, ep) && !ep.phase.Completed?
    requires CodecStep(guard, ep.codec, e).Stepped?
    ensures var out := CodecStep(guard, ep.codec, e).outcome;
      WriteBetween(guard, Observed(guard, ep, e), if out.PassedThrough? then out.data else [])
  {
    hide Header, Length, Frame, Encoded, Feed;
    var h, c := ep.hist, ep.codec;
    assert h.appOut + [] == h.appOut;
    match e
    case Wrote(data) =>
      WrittenKeeps(guard, ep, data);
      if data == [] {
        assert h.out + data == h.out;
        assert c.writeBuffer != [] ==> c.writeBuffer[|data|..] == c.writeBuffer;
      }
    case _ =>
  }

  lemma QueueKeepsWriteSide(guard: nat, ep: Endpoint, payload: seq<Byte>, next: Phase)
    requires WriteSide(guard, ep) && ep.hist.appOut == [] == ep.hist.appIn
    requires next.Flushing? || next.Expecting? || (next.Replying? && ep.codec.decoder == START)
    ensures WriteSide(guard, Queue(ep, payload, next))
  {
    hide Header, Length;
    var h := ep.hist;
    if |payload| <= MAX_FRAME_SIZE {
      EncodedAppend(h.sent, payload);
      Assoc(h.out, ep.codec.writeBuffer, Frame(payload));
      assert Encoded(h.sent) + [] == Encoded(h.sent);
      assert Encoded(h.sent + [payload]) + [] == Encoded(h.sent) + Frame(payload);
    }
  }

  lemma SettleKeepsWriteSide(guard: nat, ep: Endpoint)
    requires WriteSide(guard, ep)
    ensures WriteSide(guard, Settle(ep))
  {
    hide Header, Length, Frame, Encoded, Feed, Queue, StartsWithSlash;
    match ep.phase
    case Proposing(protocols) =>
      if protocols != [] {
        QueueKeepsWriteSide(guard, ep, NameOf(protocols[0]),
          if protocols[1..] != [] then Flushing(protocols[0], protocols[1..]) else Expecting(protocols[0], Unflushed));
      }
    case Answering(message, choice) =>
      QueueKeepsWriteSide(guard, ep, Encode(message), Replying(choice));
    case _ =>
  }

  lemma OutcomeKeepsWriteSide(guard: nat, ep: Endpoint, out: Outcome)
    requires WriteBetween(guard, ep, if out.PassedThrough? then out.data else [])
    requires !ep.phase.Completed? && !ep.phase.Transient()
    requires ep.hist.appOut != [] ==> ep.phase.Expecting? || ep.phase.Final()
    requires ep.phase.Replying? ==> ep.codec.decoder == START
    requires out.GotFrame? ==>
      ep.codec.decoder == START && (ep.phase.Awaiting? || ep.phase.Receiving? || ep.phase.Expecting?)
    requires out.PassedThrough? ==> ep.phase.Expecting?
    requires out.FlushDone? ==> ep.codec.writeBuffer == []
    ensures WriteSide(guard, React(ep, out))
  {
    hide Header, Length, Frame, Encoded, Feed;
    var h := ep.hist;
    var r := React(ep, out);
    if out.PassedThrough? {
      assert r.hist == h.(appOut := h.appOut + out.data);
    } else {
      assert h.appOut + [] == h.appOut;
      assert r.hist == if out.GotFrame? then h.(received := h.received + [out.frame]) else h;
      if out.FlushDone? && ep.phase.Replying? {
        assert ep.codec == Codec(START, []);
      }
    }
  }

  lemma ReactKeepsWriteSide(guard: nat, before: Endpoint, e: Event)
    requires WriteSide(guard, before) && !before.phase.Completed? && Permits(before.phase, e)
    requires CodecStep(guard, before.codec, e).Stepped?
    requires CodecStep(guard, before.codec, e).outcome.PassedThrough? ==> before.phase.Expecting?
    ensures WriteSide(guard, React(Observed(guard, before, e), CodecStep(guard, before.codec, e).outcome))
  {
    hide Header, Length, Frame, Encoded, Feed, React;
    CodecKeepsWriteSide(guard, before, e);
    OutcomeKeepsWriteSide(guard, Observed(guard, before, e), CodecStep(guard, before.codec, e).outcome);
  }

  lemma PassKeepsWriteSide(guard: nat, ep: Endpoint, e: Event)
    requires WriteSide(guard, ep) && ep.phase.Completed?
    ensures WriteSide(guard, Pass(ep, e))
  {
    hide Header, Length, Frame, Encoded, Feed;
    var h := ep.hist;
    assert h.out + [] == h.out;
    match e
    case Wrote(data) =>
      Assoc(Encoded(h.sent), h.appOut, data);
      assert (h.out + data) + [] == h.out + data;
    case _ =>
  }

  /** Nothing written is lost, duplicated or reordered, at any step of any side. */
  lemma StepKeepsWriteSide(guard: nat, ep: Endpoint, e: Event)
    requires WriteSide(guard, ep) && Step(guard, ep, e).Some?
    ensures WriteSide(guard, Step(guard, ep, e).value)
  {
    hide Header, Length, Frame, Encoded, Feed, CodecStep, React;
    if ep.phase.Completed? {
      PassKeepsWriteSide(guard, ep, e);
    } else {
      ReactKeepsWriteSide(guard, ep, e);
      SettleKeepsWriteSide(guard, React(Observed(guard, ep, e), CodecStep(guard, ep.codec, e).outcome));
    }
  }

  // ---------------------------------------------------------------------------------------------
  // Bytes read
  // ---------------------------------------------------------------------------------------------

  /** The outcome does not make a codec parse a short header. */
  predicate FaithfulEvent(guard: nat, ep: Endpoint, e: Event)
  {
    e.Read? && e.data != [] && !ep.phase.Completed? ==> Faithful(guard, ep.codec.decoder, e.data)
  }

  /** A run of faithful steps. */
  predicate FaithfulRun(guard: nat, ep: Endpoint, es: seq<Event>)
    requires 1 <= guard <= 4 && ep.codec.decoder.Valid(guard)
    requires Run(guard, ep, es).Some?
  {
    es == [] ||
    (&& FaithfulRun(guard, ep, es[..|es| - 1])
     && FaithfulEvent(guard, Run(guard, ep, es[..|es| - 1]).value, es[|es| - 1]))
  }

  /**
   Conservation of what is read: delivered bytes are the frames returned, the unfinished frame, and
   then application bytes.
   */
  predicate ReadSide(guard: nat, ep: Endpoint)
  {
    && 1 <= guard <= 4 && ep.codec.decoder.Valid(guard)
    && ep.hist.inp == Encoded(ep.hist.received) + (ep.codec.decoder.Partial() + ep.hist.appIn)
  }

  /** Conservation in both directions. */
  predicate Wire(guard: nat, ep: Endpoint)
  {
    WriteSide(guard, ep) && ReadSide(guard, ep)
  }

  /** What looking at an outcome does to the record: a frame moves into it, or bytes let through do. */
  lemma OutcomeRecorded(ep: Endpoint, out: Outcome)
    ensures React(ep, out).hist == ep.hist.(
      received := ep.hist.received + (if out.GotFrame? then [out.frame] else []),
      appOut := ep.hist.appOut + (if out.PassedThrough? && ep.phase.Expecting? then out.data else []))
  {
    hide Header, Length, Decode, OnMessage, HandOver;
    assert ep.hist.received + [] == ep.hist.received && ep.hist.appOut + [] == ep.hist.appOut;
  }

  lemma SettleRecorded(ep: Endpoint)
    ensures var r := Settle(ep);
      r.codec.decoder == ep.codec.decoder && r.hist == ep.hist.(sent := r.hist.sent)
  {
    hide Header, Length, Frame, NameOf, StartsWithSlash, Encode;
  }

  lemma CodecKeepsReadSide(guard: nat, ep: Endpoint, e: Event)
    requires ReadSide(guard, ep) && ep.hist.appIn == [] && !ep.phase.Completed? && FaithfulEvent(guard, ep, e)
    requires CodecStep(guard, ep.codec, e).Stepped?
    ensures var s := CodecStep(guard, ep.codec, e);
      Record(ep.hist, e).inp ==
        Encoded(ep.hist.received + (if s.outcome.GotFrame? then [s.outcome.frame] else [])) + s.next.decoder.Partial()
  {
    hide Header, Length, Frame, Encoded, Feed;
    var h, d := ep.hist, ep.codec.decoder;
    assert d.Partial() + [] == d.Partial() && h.received + [] == h.received;
    if e.Read? && e.data != [] {
      ReadBytes(guard, h.received, d, e.data);
    } else if e.Read? {
      assert h.inp + [] == h.inp;
    }
  }

  lemma PassKeepsReadSide(guard: nat, ep: Endpoint, e: Event)
    requires Wire(guard, ep) && ep.phase.Completed?
    ensures ReadSide(guard, Pass(ep, e))
  {
    hide Header, Length, Frame, Encoded, Feed;
    var h := ep.hist;
    assert START.Partial() == [];
    if e.Read? {
      assert [] + h.appIn == h.appIn && [] + (h.appIn + e.data) == h.appIn + e.data;
      Assoc(Encoded(h.received), h.appIn, e.data);
    }
  }

  /** Nothing read is lost, invented or over-read, at any faithful step of any side. */
  lemma StepKeepsReadSide(guard: nat, ep: Endpoint, e: Event)
    requires Wire(guard, ep) && FaithfulEvent(guard, ep, e)
    requires Step(guard, ep, e).Some?
    ensures ReadSide(guard, Step(guard, ep, e).value)
  {
    hide Header, Length, Frame, Encoded, Feed, CodecStep, React, Settle;
    if ep.phase.Completed? {
      PassKeepsReadSide(guard, ep, e);
    } else {
      CodecKeepsReadSide(guard, ep, e);
      var mid, out := Observed(guard, ep, e), CodecStep(guard, ep.codec, e).outcome;
      OutcomeRecorded(mid, out);
      SettleRecorded(React(mid, out));
      assert mid.codec.decoder.Partial() + [] == mid.codec.decoder.Partial();
    }
  }

  /** With the intended guard every step, and so every run, is faithful. */
  lemma IntendedStepIsFaithful(ep: Endpoint, e: Event)
    requires ep.codec.decoder.Valid(4) && Step(4, ep, e).Some?
    ensures FaithfulEvent(4, ep, e)
  {
    hide React, Settle, Feed, Pass;
  }

  /**
   In a faithful run all that was read is accounted for, at its end and so at every moment; with the
   intended guard in every run.
   */
  lemma {:induction false} RunKeepsReadSide(guard: nat, ep: Endpoint, es: seq<Event>)
    requires Wire(guard, ep) && Run(guard, ep, es).Some?
    requires guard == 4 || FaithfulRun(guard, ep, es)
    ensures Wire(guard, Run(guard, ep, es).value)
  {
    hide ReadSide, Step, FaithfulEvent;
    if es != [] {
      var init, e := es[..|es| - 1], es[|es| - 1];
      RunKeepsReadSide(guard, ep, init);
      StepKeepsWire(guard, Run(guard, ep, init).value, e);
    }
  }

  lemma StepKeepsWire(guard: nat, ep: Endpoint, e: Event)
    requires Wire(guard, ep) && Step(guard, ep, e).Some?
    requires guard == 4 || FaithfulEvent(guard, ep, e)
    ensures Wire(guard, Step(guard, ep, e).value)
  {
    hide Step, FaithfulEvent;
    if guard == 4 {
      IntendedStepIsFaithful(ep, e);
    }
    StepKeepsWriteSide(guard, ep, e);
    StepKeepsReadSide(guard, ep, e);
  }

  // ---------------------------------------------------------------------------------------------
  // The dialer
  // ---------------------------------------------------------------------------------------------

  /** What can be sent as a proposal. */
  predicate Sendable(info: Info)
  {
    StartsWithSlash(NameOf(info)) && |NameOf(info)| <= MAX_FRAME_SIZE
  }

  /**
   The dialer has proposed the first names of its list, in order, one at a time: each after the answer
   to the one before. Only the last answer can be an echo, and it ends the negotiation. At most one
   proposal is buffered, and while an answer is awaited there is another protocol to try.
   */
  predicate DialerProgress(protocols: seq<Info>, ep: Endpoint)
  {
    var h, k := ep.hist, |ep.hist.sent|;
    && k <= |protocols|
    && (forall i | 0 <= i < k :: h.sent[i] == NameOf(protocols[i]) && Sendable(protocols[i]))
    && k - 1 <= |h.received| <= k
    && (forall i | 0 <= i < |h.received| && h.received[i] == h.sent[i] ::
          i == |h.received| - 1 && (ep.phase.Completed? || ep.phase.Panicked?))
    && (h.appOut != [] ==> k >= 1 && (ep.phase.Completed? || k == |protocols|))
    && |ep.codec.writeBuffer| <= (if k == 0 then 0 else |Frame(h.sent[k - 1])|)
    && match ep.phase
       case Proposing(rest) =>
         && rest == protocols[k..] && |h.received| == k && ep.codec.writeBuffer == []
         && (k > 0 ==> Decode(h.received[k - 1]).Ok?)
       case Flushing(proposal, rest) =>
         k >= 1 && rest == protocols[k..] != [] && proposal == protocols[k - 1] && |h.received| == k - 1
       case Awaiting(proposal, rest) =>
         && k >= 1 && rest == protocols[k..] != [] && proposal == protocols[k - 1] && |h.received| == k - 1
         && ep.codec.writeBuffer == [] && h.flushed == |h.out|
       case Expecting(proposal, status) =>
         && k == |protocols| >= 1 && proposal == protocols[k - 1] && |h.received| == k - 1
         && (status.FlushedAll? ==> ep.codec.writeBuffer == [] && h.flushed == |h.out|)
       case Completed(info) =>
         k >= 1 && info == protocols[k - 1] && |h.received| == k && h.received[k - 1] == h.sent[k - 1]
       case Panicked =>
         && k == |protocols| >= 1 && |h.received| == k && h.received[k - 1] == h.sent[k - 1]
         && ep.codec.writeBuffer != []
       case Failed(error) =>
         if |h.received| < k then
           // an answer is missing: the stream failed or ended
           error.Io? || error == NoAgreement
         else if k > 0 && Decode(h.received[k - 1]).Err? then
           error == Decode(h.received[k - 1]).error
         // given up only for want of another protocol to propose
         else if k == |protocols| then
           error == NoAgreement
         else
           && !Sendable(protocols[k])
           && error == if StartsWithSlash(NameOf(protocols[k])) then Io(InvalidData) else InvalidProtocol
       case _ => false
  }

  ghost predicate DialerInv(guard: nat, protocols: seq<Info>, ep: Endpoint)
  {
    WriteSide(guard, ep) && DialerProgress(protocols, ep)
  }

  lemma DialerSettle(protocols: seq<Info>, ep: Endpoint)
    requires DialerProgress(protocols, ep)
    requires ep.phase.Proposing? ==> ep.hist.appOut == []
    ensures DialerProgress(protocols, Settle(ep))
  {
    hide Header, Length, Frame, Encoded, Feed, Utf8, Decode, NameOf, StartsWithSlash;
    var k := |ep.hist.sent|;
    if ep.phase.Proposing? && k < |protocols| {
      assert protocols[k..][0] == protocols[k] && protocols[k..][1..] == protocols[k + 1..];
    }
  }

  lemma DialerFrame(protocols: seq<Info>, ep: Endpoint, f: Payload)
    requires DialerProgress(protocols, ep) && ep.codec.decoder == START
    requires ep.phase.Awaiting? || ep.phase.Expecting?
    ensures DialerProgress(protocols, React(ep, GotFrame(f)))
  {
    hide Header, Length, Frame, Encoded, Feed, NameOf, Utf8;
    var h, k := ep.hist, |ep.hist.sent|;
    var r := React(ep, GotFrame(f));
    assert r.hist.received == h.received + [f];
    assert r.hist.received[k - 1] == f;
    assert forall i | 0 <= i < k - 1 :: r.hist.received[i] == h.received[i];
  }

  lemma DialerRead(guard: nat, protocols: seq<Info>, before: Endpoint, e: Event)
    requires DialerInv(guard, protocols, before) && e.OfRead() && Permits(before.phase, e)
    requires CodecStep(guard, before.codec, e).Stepped?
    ensures DialerProgress(protocols, React(Observed(guard, before, e), CodecStep(guard, before.codec, e).outcome))
  {
    hide Header, Length, Frame, Encoded, Feed, NameOf, Utf8, Decode, Answer, HandOver, Queue, Find;
    var ep, out := Observed(guard, before, e), CodecStep(guard, before.codec, e).outcome;
    assert ep.codec.writeBuffer == before.codec.writeBuffer;
    assert DialerProgress(protocols, ep);
    if out.GotFrame? {
      DialerFrame(protocols, ep, out.frame);
    }
  }

  lemma DialerWrite(guard: nat, protocols: seq<Info>, before: Endpoint, e: Event)
    requires DialerInv(guard, protocols, before) && e.OfWrite() && Permits(before.phase, e)
    requires CodecStep(guard, before.codec, e).Stepped?
    requires CodecStep(guard, before.codec, e).outcome.PassedThrough? ==> before.phase.Expecting?
    ensures DialerProgress(protocols, React(Observed(guard, before, e), CodecStep(guard, before.codec, e).outcome))
  {
    hide Header, Length, Frame, Encoded, Feed, NameOf, Utf8, Decode, Answer, HandOver, Queue, Find;
    var ep, out := Observed(guard, before, e), CodecStep(guard, before.codec, e).outcome;
    assert |ep.codec.writeBuffer| <= |before.codec.writeBuffer|;
    if before.phase.Expecting? {
      assert out.Quiet? && before.phase.status.FlushedAll? ==> ep == before;
    }
  }

  lemma DialerFlush(guard: nat, protocols: seq<Info>, before: Endpoint, e: Event)
    requires DialerInv(guard, protocols, before) && e.OfFlush() && Permits(before.phase, e)
    requires CodecStep(guard, before.codec, e).Stepped?
    ensures DialerProgress(protocols, React(Observed(guard, before, e), CodecStep(guard, before.codec, e).outcome))
  {
    hide Header, Length, Frame, Encoded, Feed, NameOf, Utf8, Decode, Answer, HandOver, Queue, Find;
  }

  lemma DialerReact(guard: nat, protocols: seq<Info>, before: Endpoint, e: Event)
    requires DialerInv(guard, protocols, before) && Permits(before.phase, e)
    requires CodecStep(guard, before.codec, e).Stepped?
    requires CodecStep(guard, before.codec, e).outcome.PassedThrough? ==> before.phase.Expecting?
    ensures DialerProgress(protocols, React(Observed(guard, before, e), CodecStep(guard, before.codec, e).outcome))
  {
    hide Header, Length, Frame, Encoded, Feed, CodecStep, React;
    if e.OfRead() {
      DialerRead(guard, protocols, before, e);
    } else if e.OfWrite() {
      DialerWrite(guard, protocols, before, e);
    } else {
      DialerFlush(guard, protocols, before, e);
    }
  }

  lemma DialerStep(guard: nat, protocols: seq<Info>, ep: Endpoint, e: Event)
    requires DialerInv(guard, protocols, ep) && Step(guard, ep, e).Some?
    ensures DialerInv(guard, protocols, Step(guard, ep, e).value)
  {
    hide Header, Length, Frame, Encoded, Feed, CodecStep, React;
    StepKeepsWriteSide(guard, ep, e);
    if !ep.phase.Completed? {
      DialerReact(guard, protocols, ep, e);
      ReactKeepsWriteSide(guard, ep, e);
      DialerSettle(protocols, React(Observed(guard, ep, e), CodecStep(guard, ep.codec, e).outcome));
    }
  }

  lemma DialerInit(guard: nat, protocols: seq<Info>)
    requires 1 <= guard <= 4
    ensures DialerInv(guard, protocols, Settle(NewDialer(protocols)))
  {
    hide Header, Length;
    SettleKeepsWriteSide(guard, NewDialer(protocols));
    DialerSettle(protocols, NewDialer(protocols));
  }

  // ---------------------------------------------------------------------------------------------
  // The listener
  // ---------------------------------------------------------------------------------------------

  /** The payload a listener answers a proposal with: its echo or "na". */
  function Reply(supported: seq<Info>, f: Payload): (reply: Payload)
  {
    if Find(supported, f).Some? then f else NA
  }

  /**
   The listener has answered the frames it received, in order, each with its reply; every answer but
   the last is "na". Once an answer is an echo it reads no more frames. At most one answer is buffered.
   */
  predicate ListenerProgress(protocols: seq<Info>, ep: Endpoint)
  {
    var h, n := ep.hist, |ep.hist.sent|;
    && ep.supported == Supported(protocols)
    && n <= |h.received| <= n + 1
    && (forall i | 0 <= i < n :: h.sent[i] == Reply(ep.supported, h.received[i]) && |h.sent[i]| <= MAX_FRAME_SIZE)
    && (forall i | 0 <= i < n - 1 :: h.sent[i] == NA)
    && (h.appOut != [] ==> ep.phase.Completed?)
    && |ep.codec.writeBuffer| <= (if n == 0 then 0 else |Frame(h.sent[n - 1])|)
    && match ep.phase
       case Receiving =>
         && |h.received| == n && (n > 0 ==> h.sent[n - 1] == NA)
         && ep.codec.writeBuffer == [] && h.flushed == |h.out|
       case Answering(message, choice) =>
         && |h.received| == n + 1 && (n > 0 ==> h.sent[n - 1] == NA) && ep.codec.writeBuffer == []
         && Encode(message) == Reply(ep.supported, h.received[n]) && choice == Find(ep.supported, h.received[n])
       case Replying(choice) =>
         && |h.received| == n > 0 && choice == Find(ep.supported, h.received[n - 1])
       case Completed(info) =>
         && |h.received| == n > 0 && Some(info) == Find(ep.supported, h.received[n - 1])
         && h.flushed >= |Encoded(h.sent)|
       case Failed(error) =>
         && (n > 0 && h.sent[n - 1] != NA ==> |h.received| == n)
         && if |h.received| == n then
              // the stream failed or ended
              error.Io? || error == NoAgreement
            else
              // the last frame is no proposal, or one that cannot be echoed
              (match Decode(h.received[n])
               case Err(e) => error == e
               case Ok(NotAvailable) => error == InvalidMessage
               case Ok(Propose(p)) => error == Io(InvalidData) && |Reply(ep.supported, p)| > MAX_FRAME_SIZE)
       case _ => false
  }

  ghost predicate ListenerInv(guard: nat, protocols: seq<Info>, ep: Endpoint)
  {
    WriteSide(guard, ep) && ListenerProgress(protocols, ep)
  }

  lemma ListenerSettle(protocols: seq<Info>, ep: Endpoint)
    requires ListenerProgress(protocols, ep)
    ensures ListenerProgress(protocols, Settle(ep))
  {
    hide Header, Length, Frame, Encoded, Feed;
    if ep.phase.Answering? && |Encode(ep.phase.message)| <= MAX_FRAME_SIZE {
      ListenerQueue(protocols, ep, Encode(ep.phase.message));
    }
  }

  lemma ListenerQueue(protocols: seq<Info>, ep: Endpoint, reply: Payload)
    requires ListenerProgress(protocols, ep) && ep.phase.Answering?
    requires reply == Encode(ep.phase.message) && |reply| <= MAX_FRAME_SIZE
    ensures ListenerProgress(protocols, Queue(ep, reply, Replying(ep.phase.choice)))
  {
    hide Header, Length, Frame, Encoded, Feed;
    var h, n := ep.hist, |ep.hist.sent|;
    var r := Queue(ep, reply, Replying(ep.phase.choice));
    assert r.hist == h.(sent := h.sent + [reply]);
    forall i | 0 <= i < n + 1
      ensures r.hist.sent[i] == Reply(ep.supported, h.received[i]) && (i < n ==> r.hist.sent[i] == NA)
    {
      if i < n {
        assert r.hist.sent[i] == h.sent[i];
      }
    }
  }

  lemma ListenerFrame(protocols: seq<Info>, ep: Endpoint, f: Payload)
    requires ListenerProgress(protocols, ep) && ep.phase.Receiving?
    ensures ListenerProgress(protocols, React(ep, GotFrame(f)))
  {
    hide Header, Length, Frame, Encoded, Feed, Supported, NameOf, Utf8;
    var h, n := ep.hist, |ep.hist.sent|;
    var r := React(ep, GotFrame(f));
    assert r.hist == h.(received := h.received + [f]);
    assert r.hist.received[n] == f;
    assert forall i | 0 <= i < n :: r.hist.received[i] == h.received[i];
  }

  lemma ListenerFlushed(guard: nat, protocols: seq<Info>, ep: Endpoint)
    requires ListenerInv(guard, protocols, ep) && ep.phase.Replying? && ep.codec.writeBuffer == []
    requires ep.hist.flushed == |ep.hist.out|
    ensures ListenerProgress(protocols, React(ep, FlushDone))
  {
    hide Header, Length, Frame, Encoded, Find, Supported, NameOf, Utf8, Feed;
    var h := ep.hist;
    assert h.out == h.out + [] == Encoded(h.sent) + [] == Encoded(h.sent);
  }

  lemma ListenerRead(guard: nat, protocols: seq<Info>, before: Endpoint, e: Event)
    requires ListenerInv(guard, protocols, before) && e.OfRead() && Permits(before.phase, e)
    requires CodecStep(guard, before.codec, e).Stepped?
    ensures ListenerProgress(protocols, React(Observed(guard, before, e), CodecStep(guard, before.codec, e).outcome))
  {
    hide Header, Length, Frame, Encoded, Feed, Find, Supported, NameOf, Utf8, Decode, Reply, Answer, HandOver, Queue;
    var ep, out := Observed(guard, before, e), CodecStep(guard, before.codec, e).outcome;
    assert ep.codec.writeBuffer == before.codec.writeBuffer;
    assert ListenerProgress(protocols, ep);
    if out.GotFrame? {
      ListenerFrame(protocols, ep, out.frame);
    }
  }

  lemma ListenerWrite(guard: nat, protocols: seq<Info>, before: Endpoint, e: Event)
    requires ListenerInv(guard, protocols, before) && e.OfWrite() && Permits(before.phase, e)
    requires CodecStep(guard, before.codec, e).Stepped? && !CodecStep(guard, before.codec, e).outcome.PassedThrough?
    ensures ListenerProgress(protocols, React(Observed(guard, before, e), CodecStep(guard, before.codec, e).outcome))
  {
    hide Header, Length, Frame, Encoded, Feed, Find, Supported, NameOf, Utf8, Decode, Answer, HandOver, Queue;
    assert before.phase.Replying?;
  }

  lemma ListenerFlush(guard: nat, protocols: seq<Info>, before: Endpoint, e: Event)
    requires ListenerInv(guard, protocols, before) && e.OfFlush() && Permits(before.phase, e)
    requires CodecStep(guard, before.codec, e).Stepped?
    ensures ListenerProgress(protocols, React(Observed(guard, before, e), CodecStep(guard, before.codec, e).outcome))
  {
    hide Header, Length, Frame, Encoded, Feed, Find, Supported, NameOf, Utf8, Decode, Reply, Answer, Queue;
    var ep, out := Observed(guard, before, e), CodecStep(guard, before.codec, e).outcome;
    assert before.phase.Replying?;
    if out.FlushDone? {
      assert WriteSide(guard, ep) && ListenerProgress(protocols, ep);
      ListenerFlushed(guard, protocols, ep);
    }
  }

  lemma ListenerStep(guard: nat, protocols: seq<Info>, ep: Endpoint, e: Event)
    requires ListenerInv(guard, protocols, ep) && Step(guard, ep, e).Some?
    ensures ListenerInv(guard, protocols, Step(guard, ep, e).value)
  {
    hide Header, Length, Frame, Encoded, Feed, CodecStep, React;
    StepKeepsWriteSide(guard, ep, e);
    if !ep.phase.Completed? {
      if e.OfRead() {
        ListenerRead(guard, protocols, ep, e);
      } else if e.OfWrite() {
        ListenerWrite(guard, protocols, ep, e);
      } else {
        ListenerFlush(guard, protocols, ep, e);
      }
      ListenerSettle(protocols, React(Observed(guard, ep, e), CodecStep(guard, ep.codec, e).outcome));
    }
  }

  lemma ListenerInit(guard: nat, protocols: seq<Info>)
    requires 1 <= guard <= 4
    ensures ListenerInv(guard, protocols, NewListener(protocols))
  {
    hide Header, Length;
  }

  // ---------------------------------------------------------------------------------------------
  // Against any peer
  // ---------------------------------------------------------------------------------------------

  /** Every run of a dialer, from its start or from any state of a run. */
  lemma {:induction false} DialerGoesOn(guard: nat, protocols: seq<Info>, ep: Endpoint, es: seq<Event>)
    requires DialerInv(guard, protocols, ep) && Run(guard, ep, es).Some?
    ensures DialerInv(guard, protocols, Run(guard, ep, es).value)
  {
    hide DialerProgress, Step;
    if es != [] {
      var init := es[..|es| - 1];
      DialerGoesOn(guard, protocols, ep, init);
      DialerStep(guard, protocols, Run(guard, ep, init).value, es[|es| - 1]);
    }
  }

  /** At most as many proposals as protocols, all conservation, whatever the peer does. */
  lemma DialerRun(guard: nat, protocols: seq<Info>, es: seq<Event>)
    requires 1 <= guard <= 4 && Run(guard, Settle(NewDialer(protocols)), es).Some?
    ensures DialerInv(guard, protocols, Run(guard, Settle(NewDialer(protocols)), es).value)
  {
    DialerInit(guard, protocols);
    DialerGoesOn(guard, protocols, Settle(NewDialer(protocols)), es);
  }

  /** Every run of a listener. */
  lemma {:induction false} ListenerGoesOn(guard: nat, protocols: seq<Info>, ep: Endpoint, es: seq<Event>)
    requires ListenerInv(guard, protocols, ep) && Run(guard, ep, es).Some?
    ensures ListenerInv(guard, protocols, Run(guard, ep, es).value)
  {
    hide ListenerProgress, Step;
    if es != [] {
      var init := es[..|es| - 1];
      ListenerGoesOn(guard, protocols, ep, init);
      ListenerStep(guard, protocols, Run(guard, ep, init).value, es[|es| - 1]);
    }
  }

  lemma ListenerRun(guard: nat, protocols: seq<Info>, es: seq<Event>)
    requires 1 <= guard <= 4 && Run(guard, NewListener(protocols), es).Some?
    ensures ListenerInv(guard, protocols, Run(guard, NewListener(protocols), es).value)
  {
    ListenerInit(guard, protocols);
    ListenerGoesOn(guard, protocols, NewListener(protocols), es);
  }

  /** A write or flush that failed. */
  function AfterError(phase: Phase, error: IoError): (r: Phase)
  {
    if !phase.Expecting? then Failed(Io(error))
    else if error == WriteZero then phase.(status := Tolerated)
    else phase
  }

  /**
   What an I/O outcome that brings nothing does to either side, before it is completed. An error of the
   stream is the error the negotiation fails with; only the stream handed over before its answer lives
   on after a write or flush that failed, and takes note of a WriteZero. The end of the stream is
   `NegotiationError::Failed` to a select future between frames, and UnexpectedEof otherwise.
   */
  lemma ErrorsSurface(guard: nat, ep: Endpoint, e: Event)
    requires 1 <= guard <= 4 && ep.codec.decoder.Valid(guard) && Step(guard, ep, e).Some?
    requires !ep.phase.Completed? && !ep.phase.Transient()
    ensures var r := Step(guard, ep, e).value;
      match e
      case Read(data) => data == [] ==>
        var clean := ep.codec.decoder.Partial() == [] && !ep.phase.Expecting?;
        r.phase == Failed(if clean then NoAgreement else Io(UnexpectedEof))
      case ReadFailed(error) => r.phase == Failed(Io(error))
      case Wrote(data) => data == [] && ep.codec.writeBuffer != [] ==> r.phase == AfterError(ep.phase, WriteZero)
      case WriteFailed(error) => r.phase == AfterError(ep.phase, error)
      case FlushFailed(error) => r.phase == AfterError(ep.phase, error)
      case Flushed => !r.phase.Failed?
      case _ => r == ep
  {
    hide Header, Length, Feed, OnMessage, Queue, Decode, NameOf;
    assert ep.codec.decoder.Partial() == [] <==> EndsCleanly(ep.codec.decoder);
  }

  /** A negotiation read is made only when all that was written is flushed, except after a WriteZero. */
  lemma ReadsAfterFlush(guard: nat, protocols: seq<Info>, ep: Endpoint, e: Event)
    requires DialerInv(guard, protocols, ep) || ListenerInv(guard, protocols, ep)
    requires Step(guard, ep, e).Some? && e.OfRead() && !ep.phase.Completed?
    ensures
      || (ep.phase.Expecting? && ep.phase.status.Tolerated?)
      || (ep.codec.writeBuffer == [] && ep.hist.flushed == |ep.hist.out|)
  {
    hide Header, Length, Frame, Encoded, Feed, React, CodecStep;
  }

  /**
   Exactly when the assertion in `into_inner` fails: the last proposal is echoed while part of it is
   still in the write buffer. That takes a tolerated WriteZero and a peer that answers too early
   (`Scenarios.PanicsIff`).
   */
  lemma PanicIffEarlyEcho(guard: nat, protocols: seq<Info>, ep: Endpoint, e: Event)
    requires DialerInv(guard, protocols, ep) && Step(guard, ep, e).Some?
    ensures Step(guard, ep, e).value.phase.Panicked? <==>
      && ep.phase.Expecting? && ep.codec.writeBuffer != []
      && CodecStep(guard, ep.codec, e).Stepped?
      && CodecStep(guard, ep.codec, e).outcome == GotFrame(NameOf(ep.phase.proposal))
    ensures Step(guard, ep, e).value.phase.Panicked? ==> ep.phase.status.Tolerated?
  {
    hide Header, Length, Frame, Encoded, Feed, Utf8, NameOf, Supported, Find, Answer;
  }

  /**
   As written, a listener whose first read brings 2 header bytes of any frame shorter than 65536 bytes
   gives the negotiation up; with the intended guard it goes on reading.
   */
  lemma ShortHeaderEndsNegotiation(offered: seq<Info>, p: Payload)
    requires |p| < 0x1_0000
    ensures Step(2, NewListener(offered), Read(Frame(p)[..2])).Some?
    ensures Step(2, NewListener(offered), Read(Frame(p)[..2])).value.phase == Failed(InvalidMessage)
    ensures Step(4, NewListener(offered), Read(Frame(p)[..2])).Some?
    ensures Step(4, NewListener(offered), Read(Frame(p)[..2])).value.phase == Receiving
  {
    var chunk := Frame(p)[..2];
    assert chunk == [0, 0];
    var buf := Zeros(4)[..0] + chunk + Zeros(4)[2..];
    assert buf == Zeros(4) && Length(buf) == 0;
  }
}
