/**
 Sessions in which reads may parse short headers. A side that gives up at such a read has shown its
 peer nothing new, and a listener that has refused the dialer's whole list and parses application bytes
 has already sent all that the dialer will read. So each state of such a session has a shadow: a state
 of a session of faithful reads that a side which goes on cannot tell from it.
 */
module Shadows {
  import opened Prelude
  import opened Frames
  import opened Messages
  import opened FrameDecoder
  import opened StreamIo
  import opened LengthDelimitedCodec
  import opened Endpoints
  import opened LocalInvariants
  import opened Session

  /** `a` is `b` after one more read, at which it gave up. */
  predicate GaveUp(a: Endpoint, b: Endpoint)
  {
    a.phase.Failed? && a.hist == b.hist.(inp := a.hist.inp, received := a.hist.received)
  }

  predicate Alike(a: Endpoint, b: Endpoint)
  {
    a == b || GaveUp(a, b)
  }

  /** The listener has refused as many names as the dialer has, and reads on: application bytes. */
  ghost predicate Parses(dialed: seq<Info>, offered: seq<Info>, listener: Endpoint, m: Move)
  {
    && m.Listen? && m.e.Read? && m.e.data != []
    && NoCommon(dialed, offered) && listener.phase.Receiving? && |listener.hist.sent| >= |dialed|
  }

  /** `o` is left where the listener begins to parse application bytes; only the dialer goes on in it. */
  ghost predicate Lost(dialed: seq<Info>, offered: seq<Info>, s: Session, o: Session)
  {
    && NoCommon(dialed, offered) && o.dialer.hist.appOut != []
    && o.listener.phase.Receiving? && |dialed| <= |o.listener.hist.sent| && |dialed| <= |s.listener.hist.sent|
    && o.listener.hist.out <= s.listener.hist.out && |o.listener.hist.out| == o.down <= s.down
  }

  ghost predicate Shadow(dialed: seq<Info>, offered: seq<Info>, s: Session, o: Session, lost: bool)
  {
    && o.up == s.up && Alike(s.dialer, o.dialer)
    && if lost then Lost(dialed, offered, s, o) else o.down == s.down && Alike(s.listener, o.listener)
  }

  /** A read at which the side gives the negotiation up. */
  predicate GivesUp(guard: nat, ep: Endpoint, e: Event)
    requires 1 <= guard <= 4 && ep.codec.decoder.Valid(guard)
  {
    e.Read? && Step(guard, ep, e).Some? && Step(guard, ep, e).value.phase.Failed?
  }

  /** A short header is parsed only by a side that then gives up, or in application bytes. */
  ghost predicate Tame(guard: nat, dialed: seq<Info>, offered: seq<Info>, s: Session, m: Move)
    requires 1 <= guard <= 4 && s.dialer.codec.decoder.Valid(guard) && s.listener.codec.decoder.Valid(guard)
  {
    || FaithfulMove(guard, s, m) || Parses(dialed, offered, s.listener, m)
    || (m.Dial? && GivesUp(guard, s.dialer, m.e)) || (m.Listen? && GivesUp(guard, s.listener, m.e))
  }

  // ---------------------------------------------------------------------------------------------
  // Single steps
  // ---------------------------------------------------------------------------------------------

  lemma GivesUpUnseen(guard: nat, ep: Endpoint, e: Event)
    requires 1 <= guard <= 4 && ep.codec.decoder.Valid(guard) && GivesUp(guard, ep, e)
    ensures GaveUp(Step(guard, ep, e).value, ep)
  {
    hide Header, Length, Feed, React, Queue, Encode, NameOf;
    if !ep.phase.Completed? {
      var mid, out := Observed(guard, ep, e), CodecStep(guard, ep.codec, e).outcome;
      OutcomeRecorded(mid, out);
      var read := React(mid, out);
      assert ep.hist.appOut + [] == ep.hist.appOut;
      assert read.hist == ep.hist.(inp := ep.hist.inp + e.data, received := read.hist.received);
      GivesUpAtOnce(read);
    }
  }

  lemma GivesUpAtOnce(ep: Endpoint)
    requires Settle(ep).phase.Failed?
    ensures Settle(ep).hist == ep.hist
  {
    hide Header, Length, Frame, NameOf, Encode, StartsWithSlash;
  }

  lemma FailedIsFinal(guard: nat, ep: Endpoint, e: Event)
    requires 1 <= guard <= 4 && ep.codec.decoder.Valid(guard) && Step(guard, ep, e).Some?
    ensures !ep.phase.Final()
  {
    hide CodecStep, React, Settle;
  }

  lemma RecordsGrow(guard: nat, ep: Endpoint, e: Event)
    requires 1 <= guard <= 4 && ep.codec.decoder.Valid(guard) && Step(guard, ep, e).Some?
    ensures var h, h' := ep.hist, Step(guard, ep, e).value.hist;
      && h.out <= h'.out && |h.sent| <= |h'.sent| && h.appOut <= h'.appOut
      && (ep.codec.writeBuffer == [] || !ep.phase.Completed? ==>
            h'.appOut == h.appOut + (if e.Wrote? && ep.codec.writeBuffer == [] then e.data else []))
  {
    hide Header, Length, Frame, Feed, React, Settle;
    assert ep.hist.appOut + [] == ep.hist.appOut;
    if !ep.phase.Completed? {
      var mid, out := Observed(guard, ep, e), CodecStep(guard, ep.codec, e).outcome;
      OutcomeRecorded(mid, out);
      SettleRecorded(React(mid, out));
      SettleSends(React(mid, out));
    }
  }

  lemma SettleSends(ep: Endpoint)
    ensures |ep.hist.sent| <= |Settle(ep).hist.sent|
  {
    hide Header, Length, Frame, NameOf, Encode, StartsWithSlash;
  }

  // ---------------------------------------------------------------------------------------------
  // What is being read
  // ---------------------------------------------------------------------------------------------

  /** Past the peer's last frame there are only application bytes. */
  lemma ReadsAppBytes(guard: nat, w: Endpoint, r: Endpoint, data: seq<Byte>)
    requires Wire(guard, w) && Wire(guard, r) && r.hist.appIn == []
    requires data != [] && r.hist.inp + data <= w.hist.out && |r.hist.received| >= |w.hist.sent|
    ensures w.hist.appOut != []
  {
    hide Header, Length, Frame, Encoded;
    var x := r.codec.decoder.Partial();
    FramesAgree(guard, w, r);
    if r.hist.received == w.hist.sent {
      assert x + [] == x;
      Assoc(Encoded(r.hist.received), x, data);
      assert w.hist.out <= w.hist.out + w.codec.writeBuffer == Encoded(w.hist.sent) + w.hist.appOut;
      PrefixCancel(Encoded(w.hist.sent), x + data, w.hist.appOut);
    }
  }

  /** Bytes of the next frame are read no further than its end. */
  lemma StaysInFrame(guard: nat, d: Decoder, n: nat, f: Payload, rest: seq<Byte>)
    requires 1 <= guard <= 4 && d.Valid(guard) && d.Partial() <= Frame(f) + rest && n <= d.Want()
    ensures |d.Partial()| + n <= |Frame(f)|
  {
    hide Header, Length;
    match d.state
    case ReadLength(_, _) =>
    case ReadData(len, pos) =>
      var partial, frame := d.Partial(), Frame(f) + rest;
      assert partial[..4] == Header(len);
      assert frame[..4] == Header(|f|);
      assert partial == frame[..|partial|] && partial[..4] == frame[..4];
      assert Length(Header(len)) == len && Length(Header(|f|)) == |f|;
  }

  /** What is read next when there is a frame to come. */
  lemma NextFrame(guard: nat, w: Endpoint, r: Endpoint, data: seq<Byte>) returns (rest: seq<Byte>)
    requires Wire(guard, w) && Wire(guard, r) && r.hist.appIn == []
    requires r.hist.inp + data <= w.hist.out && |r.hist.received| < |w.hist.sent|
    ensures r.hist.received <= w.hist.sent
    ensures r.codec.decoder.Partial() + data <= Frame(w.hist.sent[|r.hist.received|]) + rest
    ensures Encoded(r.hist.received) + Frame(w.hist.sent[|r.hist.received|]) <= Encoded(w.hist.sent)
  {
    hide Header, Length, Frame;
    var received, sent, x := r.hist.received, w.hist.sent, r.codec.decoder.Partial();
    FramesAgree(guard, w, r);
    var next, later := sent[|received|], Encoded(sent[|received|..][1..]);
    rest := later + w.hist.appOut;
    Split(received, sent, []);
    Split(received, sent, w.hist.appOut);
    Assoc(Frame(next), later, w.hist.appOut);
    assert Encoded(sent) + [] == Encoded(sent) && Encoded(sent[|received|..]) + [] == Frame(next) + later;
    Assoc(Encoded(received), Frame(next), later);
    assert x + [] == x;
    Assoc(Encoded(received), x, data);
    assert w.hist.out <= w.hist.out + w.codec.writeBuffer == Encoded(sent) + w.hist.appOut;
    PrefixCancel(Encoded(received), x + data, Frame(next) + rest);
  }

  /** A dialer that waits for an answer reads it and nothing behind it. */
  lemma AnswerIsThere(guard: nat, l: Endpoint, d: Endpoint, n: nat)
    requires Wire(guard, l) && Wire(guard, d) && d.hist.inp <= l.hist.out && d.hist.appIn == []
    requires l.codec.writeBuffer == [] && l.hist.appOut == []
    requires |d.hist.received| < |l.hist.sent| && n <= d.codec.decoder.Want()
    ensures |d.hist.inp| + n <= |l.hist.out|
  {
    hide Header, Length, Frame, Encoded;
    var x := d.codec.decoder.Partial();
    assert l.hist.out + [] == l.hist.out && Encoded(l.hist.sent) + [] == Encoded(l.hist.sent) && x + [] == x;
    assert d.hist.inp + [] == d.hist.inp;
    var rest := NextFrame(guard, l, d, []);
    StaysInFrame(guard, d.codec.decoder, n, l.hist.sent[|d.hist.received|], rest);
  }

  /** A listener that has answered all the dialer's frames and reads on finds no common name. */
  lemma NothingInCommon(guard: nat, dialed: seq<Info>, offered: seq<Info>, s: Session)
    requires Inv(guard, dialed, offered, s) && s.listener.phase.Receiving? && s.dialer.hist.appOut != []
    requires |s.listener.hist.received| >= |s.dialer.hist.sent|
    ensures NoCommon(dialed, offered) && |s.listener.hist.sent| >= |dialed|
  {
    hide Header, Length, Frame, Encoded, Feed, NameOf, Find, Supported, DialerProgress, ListenerProgress;
    Refusing(offered, s.listener);
    ProposedAll(dialed, s.dialer);
    if s.dialer.phase.Completed? {
      LockStep(guard, dialed, offered, s);
    }
    forall j | 0 <= j < |dialed|
      ensures !Offers(offered, NameOf(dialed[j]))
    {
      Answered(guard, dialed, offered, s, j);
    }
  }

  lemma Refusing(offered: seq<Info>, listener: Endpoint)
    requires ListenerProgress(offered, listener) && listener.phase.Receiving?
    ensures var h := listener.hist;
      && |h.received| == |h.sent| && forall i | 0 <= i < |h.sent| :: h.sent[i] == NA
    ensures listener.codec.writeBuffer == [] && listener.hist.appOut == []
    ensures listener.hist.flushed == |listener.hist.out|
  {
    hide Frame;
  }

  /** A dialer that reads an answer has one fewer than it has proposed. */
  lemma OneToCome(guard: nat, dialed: seq<Info>, dialer: Endpoint, e: Event)
    requires DialerInv(guard, dialed, dialer) && Step(guard, dialer, e).Some? && e.OfRead() && !dialer.phase.Completed?
    ensures dialer.phase.Awaiting? || dialer.phase.Expecting?
    ensures |dialer.hist.received| < |dialer.hist.sent| <= |dialed| && dialer.hist.appIn == []
  {
    hide Frame, Encoded, CodecStep, React, Settle;
  }

  // ---------------------------------------------------------------------------------------------
  // The shadow follows
  // ---------------------------------------------------------------------------------------------

  /** What the dialer reads is there in the shadow too. */
  lemma ShadowDelivers(guard: nat, dialed: seq<Info>, offered: seq<Info>, s: Session, o: Session, lost: bool, e: Event)
    requires Reached(guard, dialed, offered, o) && Inv(guard, dialed, offered, o)
    requires Shadow(dialed, offered, s, o, lost) && s.dialer == o.dialer
    requires 1 <= guard <= 4 && Step(guard, o.dialer, e).Some? && Delivers(s.dialer, e, s.listener.hist.out, s.down)
    ensures Delivers(o.dialer, e, o.listener.hist.out, o.down)
    ensures lost && e.Read? && e.data != [] ==> |o.dialer.hist.received| < |o.listener.hist.sent|
  {
    hide Header, Length, Frame, Encoded, WriteSide, ReadSide, DialerProgress, ListenerProgress, Reached, NoCommon;
    if lost && e.Read? {
      NoCommonOutcome(guard, dialed, offered, o);
      if e.data != [] {
        OneToCome(guard, dialed, o.dialer, e);
        Refusing(offered, o.listener);
        ReachedValid(guard, dialed, offered, o);
        WantIsKept(guard, o.dialer, e);
        AnswerIsThere(guard, o.listener, o.dialer, |e.data|);
      }
    }
  }

  lemma WantIsKept(guard: nat, ep: Endpoint, e: Event)
    requires 1 <= guard <= 4 && ep.codec.decoder.Valid(guard) && Step(guard, ep, e).Some? && e.Read?
    ensures ep.phase.Completed? || |e.data| <= ep.codec.decoder.Want()
  {
    hide Feed, React, Settle;
  }

  lemma ShadowDials(guard: nat, dialed: seq<Info>, offered: seq<Info>,
        s: Session, o: Session, lost: bool, e: Event, s': Session) returns (o': Session)
    requires Reached(guard, dialed, offered, o) && Shadow(dialed, offered, s, o, lost)
    requires Happens(guard, s, Dial(e), s') && (FaithfulEvent(guard, s.dialer, e) || GivesUp(guard, s.dialer, e))
    ensures Reached(guard, dialed, offered, o') && Shadow(dialed, offered, s', o', lost)
    ensures FaithfulEvent(guard, s.dialer, e) ==> o'.dialer == s'.dialer && (!lost && s == o ==> s' == o')
  {
    hide Step, FaithfulEvent, Reached, NoCommon, Inv, Delivers;
    ReachedInv(guard, dialed, offered, o);
    FailedIsFinal(guard, s.dialer, e);
    assert s.dialer == o.dialer;
    ReachedValid(guard, dialed, offered, o);
    if FaithfulEvent(guard, s.dialer, e) {
      ShadowDelivers(guard, dialed, offered, s, o, lost, e);
      RecordsGrow(guard, o.dialer, e);
      o' := o.(dialer := s'.dialer, up := s'.up);
      ReachedNext(guard, dialed, offered, o, Dial(e), o');
    } else {
      GivesUpUnseen(guard, s.dialer, e);
      o' := o;
    }
  }

  /** The listener begins to parse application bytes. */
  lemma GetsLost(guard: nat, dialed: seq<Info>, offered: seq<Info>, s: Session, o: Session, m: Move, s': Session)
    requires Inv(guard, dialed, offered, o) && Shadow(dialed, offered, s, o, false)
    requires Happens(guard, s, m, s') && Parses(dialed, offered, s.listener, m)
    ensures Shadow(dialed, offered, s', o, true)
  {
    hide Step, Encoded, Frame, Header, Length, NoCommon, WriteSide, ReadSide, DialerProgress, ListenerProgress;
    FailedIsFinal(guard, s.listener, m.e);
    assert s.listener == o.listener;
    Refusing(offered, o.listener);
    RecordsGrow(guard, s.listener, m.e);
    NoMoreThanListed(dialed, o.dialer);
    NoApplicationYet(guard, o.listener);
    ReadsAppBytes(guard, o.dialer, o.listener, m.e.data);
  }

  lemma NoMoreThanListed(dialed: seq<Info>, dialer: Endpoint)
    requires DialerProgress(dialed, dialer)
    ensures |dialer.hist.sent| <= |dialed|
  {
    hide Frame;
  }

  lemma NoApplicationYet(guard: nat, ep: Endpoint)
    requires WriteSide(guard, ep) && !ep.phase.Completed?
    ensures ep.hist.appIn == []
  {
    hide Encoded;
  }

  lemma ShadowListens(guard: nat, dialed: seq<Info>, offered: seq<Info>,
        s: Session, o: Session, lost: bool, e: Event, s': Session) returns (o': Session)
    requires Reached(guard, dialed, offered, o) && Shadow(dialed, offered, s, o, lost)
    requires Happens(guard, s, Listen(e), s')
    requires !lost ==> FaithfulEvent(guard, s.listener, e) || GivesUp(guard, s.listener, e)
    ensures Reached(guard, dialed, offered, o') && Shadow(dialed, offered, s', o', lost)
    ensures o'.dialer == o.dialer && s'.dialer == s.dialer
    ensures !lost && s == o && FaithfulEvent(guard, s.listener, e) ==> s' == o'
  {
    hide Step, FaithfulEvent, Reached, NoCommon;
    FailedIsFinal(guard, s.listener, e);
    RecordsGrow(guard, s.listener, e);
    o' := o;
    if lost {
    } else if FaithfulEvent(guard, s.listener, e) {
      o' := o.(listener := s'.listener, down := s'.down);
      ReachedValid(guard, dialed, offered, o);
      ReachedNext(guard, dialed, offered, o, Listen(e), o');
    } else {
      GivesUpUnseen(guard, s.listener, e);
    }
  }

  lemma ReachedValid(guard: nat, dialed: seq<Info>, offered: seq<Info>, o: Session)
    requires Reached(guard, dialed, offered, o)
    ensures 1 <= guard <= 4 && o.dialer.codec.decoder.Valid(guard) && o.listener.codec.decoder.Valid(guard)
  {
    hide Reached, Encoded, DialerProgress, ListenerProgress;
    ReachedInv(guard, dialed, offered, o);
  }

  lemma ShadowTransits(guard: nat, dialed: seq<Info>, offered: seq<Info>,
        s: Session, o: Session, lost: bool, m: Move, s': Session) returns (o': Session)
    requires Reached(guard, dialed, offered, o) && Shadow(dialed, offered, s, o, lost)
    requires Happens(guard, s, m, s') && m.Transit?
    ensures Reached(guard, dialed, offered, o') && Shadow(dialed, offered, s', o', lost)
    ensures o'.dialer == o.dialer && s'.dialer == s.dialer && (!lost && s == o ==> s' == o')
  {
    hide Reached, NoCommon;
    ReachedValid(guard, dialed, offered, o);
    o' := o.(up := s'.up, down := if lost then o.down else s'.down);
    ReachedNext(guard, dialed, offered, o, Transit(o'.up, o'.down), o');
  }

  lemma ShadowStep(guard: nat, dialed: seq<Info>, offered: seq<Info>,
        s: Session, o: Session, lost: bool, m: Move, s': Session) returns (o': Session, lost': bool)
    requires Reached(guard, dialed, offered, o) && Shadow(dialed, offered, s, o, lost) && Happens(guard, s, m, s')
    requires (lost && m.Listen?) || Tame(guard, dialed, offered, s, m)
    ensures Reached(guard, dialed, offered, o') && Shadow(dialed, offered, s', o', lost')
    ensures lost' <==> lost || Parses(dialed, offered, s.listener, m)
    ensures s.dialer == o.dialer && (m.Dial? ==> FaithfulMove(guard, s, m)) ==> s'.dialer == o'.dialer
    ensures !lost' && s == o && FaithfulMove(guard, s, m) ==> s' == o'
  {
    hide Reached, Shadow, GivesUp, Step, Delivers, Inv, NoCommon;
    lost' := lost || Parses(dialed, offered, s.listener, m);
    if lost' && !lost {
      ReachedInv(guard, dialed, offered, o);
      GetsLost(guard, dialed, offered, s, o, m, s');
      o' := o;
    } else {
      match m {
        case Dial(e) => o' := ShadowDials(guard, dialed, offered, s, o, lost, e, s');
        case Listen(e) => o' := ShadowListens(guard, dialed, offered, s, o, lost, e, s');
        case Transit(_, _) => o' := ShadowTransits(guard, dialed, offered, s, o, lost, m, s');
      }
    }
  }

  // ---------------------------------------------------------------------------------------------
  // What a shadow is good for
  // ---------------------------------------------------------------------------------------------

  /**
   The results of `Session.dfy` about a state: agreement, the listener's outcome, transparent handover,
   no panic, and a deadlock only after a tolerated WriteZero.
   */
  ghost predicate Sound(dialed: seq<Info>, offered: seq<Info>, s: Session)
  {
    var d, l := s.dialer, s.listener;
    && !d.phase.Panicked? && !l.phase.Panicked?
    && (d.phase.Completed? ==>
          && Accepted(l) && l.hist.sent[|l.hist.sent| - 1] == NameOf(d.phase.info)
          && FirstCommon(dialed, offered, |d.hist.sent| - 1))
    && (d.phase.Completed? && l.phase.Completed? ==> NameOf(d.phase.info) == NameOf(l.phase.info))
    && (!NoCommon(dialed, offered) ==>
          && d.hist.appIn <= l.hist.appOut && l.hist.appIn <= d.hist.appOut
          && (Accepted(l) ==>
                && FirstCommon(dialed, offered, |l.hist.sent| - 1)
                && l.hist.sent[|l.hist.sent| - 1] == NameOf(dialed[|l.hist.sent| - 1])))
    && (Stuck(s) ==> WaitsUnsent(d))
  }

  lemma ShadowAgrees(guard: nat, dialed: seq<Info>, offered: seq<Info>, s: Session, o: Session, lost: bool)
    requires Reached(guard, dialed, offered, o) && Shadow(dialed, offered, s, o, lost)
    requires s.dialer.phase.Completed?
    ensures Accepted(s.listener) && s.listener.hist.sent[|s.listener.hist.sent| - 1] == NameOf(s.dialer.phase.info)
    ensures FirstCommon(dialed, offered, |s.dialer.hist.sent| - 1)
    ensures s.listener.phase.Completed? ==> NameOf(s.dialer.phase.info) == NameOf(s.listener.phase.info)
  {
    hide Reached, NameOf, Offers;
    assert s.dialer == o.dialer;
    Agreement(guard, dialed, offered, o);
  }

  lemma ShadowHandsOver(guard: nat, dialed: seq<Info>, offered: seq<Info>, s: Session, o: Session, lost: bool)
    requires Reached(guard, dialed, offered, o) && Shadow(dialed, offered, s, o, lost) && !NoCommon(dialed, offered)
    ensures s.dialer.hist.appIn <= s.listener.hist.appOut && s.listener.hist.appIn <= s.dialer.hist.appOut
    ensures var l := s.listener.hist; Accepted(s.listener) ==>
      FirstCommon(dialed, offered, |l.sent| - 1) && l.sent[|l.sent| - 1] == NameOf(dialed[|l.sent| - 1])
  {
    hide Reached, NameOf, NoCommon, Offers, Find, Supported;
    Handover(guard, dialed, offered, o);
    if Accepted(s.listener) {
      ListenerOutcome(guard, dialed, offered, o);
    }
  }

  /** A dialer whose listener parses application bytes finds its last answer. */
  lemma LostIsNotStuck(guard: nat, dialed: seq<Info>, offered: seq<Info>, s: Session, o: Session)
    requires Reached(guard, dialed, offered, o) && Shadow(dialed, offered, s, o, true)
    ensures !Stuck(s)
  {
    hide Reached, NoCommon, Header, Length, Frame, Encoded, ReadSide, ListenerProgress;
    ReachedInv(guard, dialed, offered, o);
    NoCommonOutcome(guard, dialed, offered, o);
    if Waits(s.dialer, s.down) {
      assert s.dialer == o.dialer;
      Refusing(offered, o.listener);
      AllSent(guard, o.listener);
      AllFramesReturned(guard, o.listener, o.dialer, o.down);
    }
  }

  lemma ShadowIsSound(guard: nat, dialed: seq<Info>, offered: seq<Info>, s: Session, o: Session, lost: bool)
    requires Reached(guard, dialed, offered, o) && Shadow(dialed, offered, s, o, lost)
    requires ListenerProgress(offered, s.listener)
    ensures Sound(dialed, offered, s)
  {
    hide Reached, NameOf, NoCommon, FirstCommon, WaitsUnsent, Frame, Encoded, Find, Supported, Lost;
    NoPanic(guard, dialed, offered, o);
    if s.dialer.phase.Completed? {
      ShadowAgrees(guard, dialed, offered, s, o, lost);
    }
    if !NoCommon(dialed, offered) {
      ShadowHandsOver(guard, dialed, offered, s, o, lost);
    }
    if Stuck(s) {
      if lost {
        LostIsNotStuck(guard, dialed, offered, s, o);
      } else {
        StuckAfterWriteZero(guard, dialed, offered, o);
      }
    }
  }

  // ---------------------------------------------------------------------------------------------
  // Short names
  // ---------------------------------------------------------------------------------------------

  /** All names shorter than 256 bytes: the first 3 bytes of every header are zero. */
  predicate ShortNames(infos: seq<Info>)
  {
    forall info | info in infos :: |NameOf(info)| < 0x100
  }

  /** Every interleaving and chunking, short headers included. */
  predicate IsAnyRun(guard: nat, dialed: seq<Info>, offered: seq<Info>, states: seq<Session>, moves: seq<Move>)
  {
    && 1 <= guard <= 4
    && |states| == |moves| + 1 && states[0] == Start(dialed, offered)
    && forall i | 0 <= i < |moves| :: Happens(guard, states[i], moves[i], states[i + 1])
  }

  /** Header bytes of such a frame that are parsed short come out as an empty frame. */
  lemma ShortFeed(guard: nat, d: Decoder, chunk: seq<Byte>, f: Payload, rest: seq<Byte>)
    requires 1 <= guard <= 4 && d.Valid(guard) && 0 < |chunk| <= d.Want() && !Faithful(guard, d, chunk)
    requires |f| < 0x100 && d.Partial() + chunk <= Frame(f) + rest
    ensures Feed(guard, d, chunk) == Fed(START, Some([]))
  {
    var buf, pos := d.state.buf, d.state.pos;
    var read := d.Partial() + chunk;
    var buf' := buf[..pos] + chunk + buf[pos + |chunk|..];
    assert Header(|f|) == [0, 0, 0, |f|];
    forall i | 0 <= i < 4
      ensures buf'[i] == 0
    {
      if i < |read| {
        assert buf'[i] == read[i] == (Frame(f) + rest)[i] == Header(|f|)[i];
      }
    }
    assert Length(buf') == 0;
  }

  /** No message is empty. */
  lemma EmptyFrameFails(ep: Endpoint)
    ensures Settle(React(ep, GotFrame([]))).phase == Failed(InvalidMessage)
  {
    hide Header, Length, OnMessage;
  }

  lemma ShortHeaderFails(guard: nat, w: Endpoint, r: Endpoint, e: Event)
    requires Wire(guard, w) && Wire(guard, r) && r.hist.appIn == []
    requires Step(guard, r, e).Some? && !FaithfulEvent(guard, r, e)
    requires r.hist.inp + e.data <= w.hist.out && |r.hist.received| < |w.hist.sent|
    requires |w.hist.sent[|r.hist.received|]| < 0x100
    ensures Step(guard, r, e).value.phase == Failed(InvalidMessage)
  {
    hide Header, Length, Frame, Encoded, Feed, React, Settle, Faithful;
    var rest := NextFrame(guard, w, r, e.data);
    ShortFeed(guard, r.codec.decoder, e.data, w.hist.sent[|r.hist.received|], rest);
    assert CodecStep(guard, r.codec, e) == Stepped(r.codec.(decoder := START), GotFrame([]));
    EmptyFrameFails(Observed(guard, r, e));
  }

  /** Replies are short if the names are. */
  lemma ReplyIsShort(offered: seq<Info>, l: Endpoint, i: nat)
    requires ListenerProgress(offered, l) && i < |l.hist.sent| && ShortNames(offered)
    ensures |l.hist.sent[i]| < 0x100
  {
    hide Frame, Utf8;
  }

  /** Only a completed listener's application writes, and a dialer that has read its echo is through. */
  lemma DialerHasFrames(guard: nat, dialed: seq<Info>, offered: seq<Info>, s: Session)
    requires Inv(guard, dialed, offered, s) && s.listener.hist.appOut != []
    requires |s.dialer.hist.received| >= |s.listener.hist.sent|
    ensures s.dialer.phase.Completed? || s.dialer.phase.Panicked?
  {
    hide Header, Length, Frame, Encoded, Feed, NameOf, Supported, WriteSide, ReadSide;
    NoOverrun(guard, dialed, offered, s);
    ListenerFinds(offered, s.listener);
    EchoedEarly(guard, dialed, offered, s);
  }

  lemma ShortDialerIsTame(guard: nat, dialed: seq<Info>, offered: seq<Info>,
        s: Session, o: Session, lost: bool, e: Event)
    requires Reached(guard, dialed, offered, o) && Shadow(dialed, offered, s, o, lost) && ShortNames(offered)
    requires 1 <= guard <= 4 && s.dialer.codec.decoder.Valid(guard) && Step(guard, s.dialer, e).Some?
    requires Delivers(s.dialer, e, s.listener.hist.out, s.down)
    requires !FaithfulEvent(guard, s.dialer, e)
    ensures Step(guard, s.dialer, e).value.phase == Failed(InvalidMessage)
  {
    hide Reached, Header, Length, Frame, Encoded, Faithful, WriteSide, Step, ReadSide, NoCommon;
    hide DialerProgress, ListenerProgress, ShortNames;
    ReachedInv(guard, dialed, offered, o);
    FailedIsFinal(guard, s.dialer, e);
    assert s.dialer == o.dialer;
    ShadowDelivers(guard, dialed, offered, s, o, lost, e);
    OneToCome(guard, dialed, o.dialer, e);
    if |o.dialer.hist.received| >= |o.listener.hist.sent| {
      ReadsAppBytes(guard, o.listener, o.dialer, e.data);
      DialerHasFrames(guard, dialed, offered, o);
    }
    ReplyIsShort(offered, o.listener, |o.dialer.hist.received|);
    ShortHeaderFails(guard, o.listener, o.dialer, e);
  }

  lemma ProposalIsShort(dialed: seq<Info>, d: Endpoint, i: nat)
    requires DialerProgress(dialed, d) && i < |d.hist.sent| && ShortNames(dialed)
    ensures |d.hist.sent[i]| < 0x100
  {
    hide Frame, Utf8, NameOf;
    assert d.hist.sent[i] == NameOf(dialed[i]) && dialed[i] in dialed;
  }

  lemma ReadsWhenReceiving(guard: nat, offered: seq<Info>, ep: Endpoint, e: Event)
    requires ListenerInv(guard, offered, ep) && Step(guard, ep, e).Some? && e.OfRead() && !ep.phase.Completed?
    ensures ep.phase.Receiving? && ep.hist.appIn == []
  {
    hide Feed, Frame, Encoded, CodecStep, React;
  }

  lemma ShortListenerIsTame(guard: nat, dialed: seq<Info>, offered: seq<Info>, s: Session, o: Session, m: Move)
    requires Reached(guard, dialed, offered, o) && Shadow(dialed, offered, s, o, false) && ShortNames(dialed)
    requires 1 <= guard <= 4 && s.listener.codec.decoder.Valid(guard)
    requires m.Listen? && Step(guard, s.listener, m.e).Some?
    requires Delivers(s.listener, m.e, s.dialer.hist.out, s.up) && !FaithfulEvent(guard, s.listener, m.e)
    ensures Parses(dialed, offered, s.listener, m) || Step(guard, s.listener, m.e).value.phase == Failed(InvalidMessage)
  {
    hide Reached, Header, Length, Frame, Encoded, Faithful, WriteSide, Step, ReadSide, NoCommon;
    hide DialerProgress, ListenerProgress, ShortNames;
    ReachedInv(guard, dialed, offered, o);
    FailedIsFinal(guard, s.listener, m.e);
    ReadsWhenReceiving(guard, offered, o.listener, m.e);
    var i := |o.listener.hist.received|;
    if i < |o.dialer.hist.sent| {
      ProposalIsShort(dialed, o.dialer, i);
      ShortHeaderFails(guard, o.dialer, o.listener, m.e);
    } else {
      ReadsAppBytes(guard, o.dialer, o.listener, m.e.data);
      NothingInCommon(guard, dialed, offered, o);
    }
  }

  lemma {:induction false} AnyRunHasShadow(guard: nat, dialed: seq<Info>, offered: seq<Info>,
        states: seq<Session>, moves: seq<Move>, n: nat) returns (o: Session, lost: bool)
    requires IsAnyRun(guard, dialed, offered, states, moves) && n < |states|
    requires ShortNames(dialed) && ShortNames(offered)
    ensures Reached(guard, dialed, offered, o) && Shadow(dialed, offered, states[n], o, lost)
    ensures SidesInv(guard, dialed, offered, states[n])
  {
    hide Happens, Reached, Shadow, SidesInv, Tame, ShortNames, ReadSide;
    if n == 0 {
      StartsAlike(guard, dialed, offered);
      o, lost := Start(dialed, offered), false;
    } else {
      o, lost := AnyRunHasShadow(guard, dialed, offered, states, moves, n - 1);
      assert Happens(guard, states[n - 1], moves[n - 1], states[n - 1 + 1]);
      HappensKeepsSides(guard, dialed, offered, states[n - 1], moves[n - 1], states[n]);
      ShortIsTame(guard, dialed, offered, states[n - 1], o, lost, moves[n - 1], states[n]);
      o, lost := ShadowStep(guard, dialed, offered, states[n - 1], o, lost, moves[n - 1], states[n]);
    }
  }

  lemma StartsAlike(guard: nat, dialed: seq<Info>, offered: seq<Info>)
    requires 1 <= guard <= 4
    ensures var s := Start(dialed, offered);
      && Reached(guard, dialed, offered, s) && Shadow(dialed, offered, s, s, false)
      && Inv(guard, dialed, offered, s)
  {
    hide Reached, Inv, Start, Lost;
    ReachedStart(guard, dialed, offered);
    StartInv(guard, dialed, offered);
  }

  lemma ShortIsTame(guard: nat, dialed: seq<Info>, offered: seq<Info>,
        s: Session, o: Session, lost: bool, m: Move, s': Session)
    requires Reached(guard, dialed, offered, o) && Shadow(dialed, offered, s, o, lost) && Happens(guard, s, m, s')
    requires ShortNames(dialed) && ShortNames(offered)
    ensures (lost && m.Listen?) || Tame(guard, dialed, offered, s, m)
  {
    hide Reached, Shadow, ShortNames, FaithfulEvent, Step, Delivers;
    match m
    case Dial(e) =>
      if !FaithfulEvent(guard, s.dialer, e) {
        ShortDialerIsTame(guard, dialed, offered, s, o, lost, e);
        OnlyReadsAreUnfaithful(guard, s.dialer, e);
      }
    case Listen(e) =>
      if !FaithfulEvent(guard, s.listener, e) && !lost {
        ShortListenerIsTame(guard, dialed, offered, s, o, m);
        OnlyReadsAreUnfaithful(guard, s.listener, e);
      }
    case Transit(_, _) =>
  }

  lemma OnlyReadsAreUnfaithful(guard: nat, ep: Endpoint, e: Event)
    requires !FaithfulEvent(guard, ep, e)
    ensures e.Read?
  {
    hide Faithful;
  }

  /**
   The code as written (guard 2), and with any other guard, over any byte pipe: if all names are shorter
   than 256 bytes, the results hold in every state of every run, with no condition on the reads.
   */
  lemma SoundForShortNames(guard: nat, dialed: seq<Info>, offered: seq<Info>,
        states: seq<Session>, moves: seq<Move>, n: nat)
    requires IsAnyRun(guard, dialed, offered, states, moves) && n < |states|
    requires ShortNames(dialed) && ShortNames(offered)
    ensures Sound(dialed, offered, states[n])
  {
    hide IsAnyRun, ShortNames, Reached, Shadow, Sound, ListenerProgress, DialerProgress;
    var o, lost := AnyRunHasShadow(guard, dialed, offered, states, moves, n);
    ShadowIsSound(guard, dialed, offered, states[n], o, lost);
  }
}
