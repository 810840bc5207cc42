/**
 A dialer and a listener joined by two byte pipes. Every interleaving of their I/O calls, every
 chunking and every Pending is a run; the dialer's application may write before the negotiation is
 confirmed. The claims are about every state of every run.
 */
module Session {
  import opened Prelude
  import opened Frames
  import opened Messages
  import opened FrameDecoder
  import opened StreamIo
  import opened LengthDelimitedCodec
  import opened Endpoints
  import opened LocalInvariants

  /** `up` and `down` count the bytes of each direction that can be read; flushing makes all readable. */
  datatype Session = Session(dialer: Endpoint, listener: Endpoint, up: nat, down: nat)

  datatype Move = Dial(e: Event) | Listen(e: Event) | Transit(up: nat, down: nat)

  /** The reader gets the next readable bytes of the pipe. A read of no bytes may come at any time. */
  predicate Delivers(reader: Endpoint, e: Event, written: seq<Byte>, visible: nat)
  {
    e.Read? ==> |reader.hist.inp| + |e.data| <= visible && reader.hist.inp + e.data <= written
  }

  /** One I/O call of one side, with any outcome; or bytes under way come within reach. */
  predicate Happens(guard: nat, s: Session, m: Move, s': Session)
  {
    && 1 <= guard <= 4 && s.dialer.codec.decoder.Valid(guard) && s.listener.codec.decoder.Valid(guard)
    && match m
       case Dial(e) =>
         && Delivers(s.dialer, e, s.listener.hist.out, s.down)
         && Step(guard, s.dialer, e).Some?
         && s' == s.(
            dialer := Step(guard, s.dialer, e).value,
            up := if e.Flushed? then |s.dialer.hist.out| else s.up)
       case Listen(e) =>
         && Delivers(s.listener, e, s.dialer.hist.out, s.up)
         && Step(guard, s.listener, e).Some?
         && s' == s.(
            listener := Step(guard, s.listener, e).value,
            down := if e.Flushed? then |s.listener.hist.out| else s.down)
       case Transit(up, down) =>
         && s.up <= up <= |s.dialer.hist.out| && s.down <= down <= |s.listener.hist.out|
         && s' == s.(up := up, down := down)
  }

  /** No header is parsed short. */
  predicate FaithfulMove(guard: nat, s: Session, m: Move)
  {
    && (m.Dial? ==> FaithfulEvent(guard, s.dialer, m.e))
    && (m.Listen? ==> FaithfulEvent(guard, s.listener, m.e))
  }

  predicate Next(guard: nat, s: Session, m: Move, s': Session)
  {
    Happens(guard, s, m, s') && FaithfulMove(guard, s, m)
  }

  function Start(dialed: seq<Info>, offered: seq<Info>): (s: Session)
  {
    Session(Settle(NewDialer(dialed)), NewListener(offered), 0, 0)
  }

  predicate IsRun(guard: nat, dialed: seq<Info>, offered: seq<Info>, states: seq<Session>, moves: seq<Move>)
  {
    && 1 <= guard <= 4
    && |states| == |moves| + 1 && states[0] == Start(dialed, offered)
    && forall i | 0 <= i < |moves| :: Next(guard, states[i], moves[i], states[i + 1])
  }

  // ---------------------------------------------------------------------------------------------
  // The invariant
  // ---------------------------------------------------------------------------------------------

  predicate Pipe(writer: Endpoint, reader: Endpoint, visible: nat)
  {
    && reader.hist.inp <= writer.hist.out
    && |reader.hist.inp| <= visible <= |writer.hist.out|
    && writer.hist.flushed <= visible
  }

  /** What holds whatever the reads bring. */
  ghost predicate SidesInv(guard: nat, dialed: seq<Info>, offered: seq<Info>, s: Session)
  {
    && DialerInv(guard, dialed, s.dialer) && ListenerInv(guard, offered, s.listener)
    && !s.dialer.phase.Transient() && !s.listener.phase.Transient()
    && Pipe(s.dialer, s.listener, s.up)
    && Pipe(s.listener, s.dialer, s.down)
  }

  ghost predicate Inv(guard: nat, dialed: seq<Info>, offered: seq<Info>, s: Session)
  {
    SidesInv(guard, dialed, offered, s) && ReadSide(guard, s.dialer) && ReadSide(guard, s.listener)
  }

  /** A step appends to what a side wrote or read, and to nothing else. */
  lemma StepHistory(guard: nat, ep: Endpoint, e: Event)
    requires 1 <= guard <= 4 && ep.codec.decoder.Valid(guard) && Step(guard, ep, e).Some?
    ensures var h, h' := ep.hist, Step(guard, ep, e).value.hist;
      && h'.out == Record(h, e).out && h'.inp == Record(h, e).inp && h'.flushed == Record(h, e).flushed
  {
    hide Header, Length, Frame, Encoded, Feed;
    if !ep.phase.Completed? {
      var s := CodecStep(guard, ep.codec, e);
      var ep1 := ep.(codec := s.next, hist := Record(ep.hist, e));
      var r := React(ep1, s.outcome);
      assert r.hist.out == ep1.hist.out && r.hist.inp == ep1.hist.inp && r.hist.flushed == ep1.hist.flushed;
    }
  }

  lemma PipeKept(guard: nat, writer: Endpoint, reader: Endpoint, visible: nat, e: Event)
    requires 1 <= guard <= 4 && Pipe(writer, reader, visible)
    requires writer.codec.decoder.Valid(guard) && reader.codec.decoder.Valid(guard)
    ensures Step(guard, writer, e).Some? && writer.hist.flushed <= |writer.hist.out| ==>
      Pipe(Step(guard, writer, e).value, reader, if e.Flushed? then |writer.hist.out| else visible)
    ensures Step(guard, reader, e).Some? && Delivers(reader, e, writer.hist.out, visible) ==>
      Pipe(writer, Step(guard, reader, e).value, visible)
  {
    hide Step;
    if Step(guard, writer, e).Some? {
      StepHistory(guard, writer, e);
    }
    if Step(guard, reader, e).Some? {
      StepHistory(guard, reader, e);
    }
  }

  lemma HappensKeepsSides(guard: nat, dialed: seq<Info>, offered: seq<Info>, s: Session, m: Move, s': Session)
    requires SidesInv(guard, dialed, offered, s) && Happens(guard, s, m, s')
    ensures SidesInv(guard, dialed, offered, s')
  {
    hide Step, DialerProgress, ListenerProgress;
    match m
    case Dial(e) =>
      DialerStep(guard, dialed, s.dialer, e);
      PipeKept(guard, s.dialer, s.listener, s.up, e);
      PipeKept(guard, s.listener, s.dialer, s.down, e);
    case Listen(e) =>
      ListenerStep(guard, offered, s.listener, e);
      PipeKept(guard, s.dialer, s.listener, s.up, e);
      PipeKept(guard, s.listener, s.dialer, s.down, e);
    case Transit(_, _) =>
  }

  lemma NextKeepsInv(guard: nat, dialed: seq<Info>, offered: seq<Info>, s: Session, m: Move, s': Session)
    requires Inv(guard, dialed, offered, s) && Next(guard, s, m, s')
    ensures Inv(guard, dialed, offered, s')
  {
    hide Step, DialerProgress, ListenerProgress, ReadSide, FaithfulEvent;
    HappensKeepsSides(guard, dialed, offered, s, m, s');
    match m
    case Dial(e) => StepKeepsReadSide(guard, s.dialer, e);
    case Listen(e) => StepKeepsReadSide(guard, s.listener, e);
    case Transit(_, _) =>
  }

  lemma NothingReadYet(guard: nat, ep: Endpoint)
    requires 1 <= guard <= 4 && ep.codec.decoder == START
    requires ep.hist.inp == [] && ep.hist.received == [] && ep.hist.appIn == []
    ensures ReadSide(guard, ep)
  {
    assert START.Partial() + [] == [];
  }

  lemma StartHistory(dialed: seq<Info>)
    ensures var h := Settle(NewDialer(dialed)).hist;
      h.out == [] && h.inp == [] && h.flushed == 0 && h.received == [] && h.appIn == []
  {
    hide Header, Length, Frame, NameOf;
  }

  lemma StartInv(guard: nat, dialed: seq<Info>, offered: seq<Info>)
    requires 1 <= guard <= 4
    ensures Inv(guard, dialed, offered, Start(dialed, offered))
  {
    hide DialerInv, ListenerInv, ReadSide, Settle, Supported;
    DialerInit(guard, dialed);
    ListenerInit(guard, offered);
    StartHistory(dialed);
    NothingReadYet(guard, Settle(NewDialer(dialed)));
    NothingReadYet(guard, NewListener(offered));
  }

  /** Every state of every run. */
  lemma {:induction false} RunKeepsInv(guard: nat, dialed: seq<Info>, offered: seq<Info>,
        states: seq<Session>, moves: seq<Move>, n: nat)
    requires IsRun(guard, dialed, offered, states, moves) && n < |states|
    ensures Inv(guard, dialed, offered, states[n])
  {
    hide Inv, Next;
    if n == 0 {
      StartInv(guard, dialed, offered);
    } else {
      RunKeepsInv(guard, dialed, offered, states, moves, n - 1);
      assert Next(guard, states[n - 1], moves[n - 1], states[n - 1 + 1]);
      NextKeepsInv(guard, dialed, offered, states[n - 1], moves[n - 1], states[n]);
    }
  }

  /** `s` is a state of some run. */
  ghost predicate Reached(guard: nat, dialed: seq<Info>, offered: seq<Info>, s: Session)
  {
    exists states, moves :: IsRun(guard, dialed, offered, states, moves) && s in states
  }

  lemma ReachedInv(guard: nat, dialed: seq<Info>, offered: seq<Info>, s: Session)
    requires Reached(guard, dialed, offered, s)
    ensures Inv(guard, dialed, offered, s)
  {
    var states, moves :| IsRun(guard, dialed, offered, states, moves) && s in states;
    var n: nat :| n < |states| && states[n] == s;
    RunKeepsInv(guard, dialed, offered, states, moves, n);
  }

  lemma ReachedNext(guard: nat, dialed: seq<Info>, offered: seq<Info>, s: Session, m: Move, s': Session)
    requires Reached(guard, dialed, offered, s) && Next(guard, s, m, s')
    ensures Reached(guard, dialed, offered, s')
  {
    hide Next, Start;
    var states, moves :| IsRun(guard, dialed, offered, states, moves) && s in states;
    var n: nat :| n < |states| && states[n] == s;
    var longer, more := states[..n + 1] + [s'], moves[..n] + [m];
    assert forall i | 0 <= i < n :: Next(guard, states[i], moves[i], states[i + 1]);
    assert IsRun(guard, dialed, offered, longer, more);
    assert longer[n + 1] == s';
  }

  lemma ReachedStart(guard: nat, dialed: seq<Info>, offered: seq<Info>)
    requires 1 <= guard <= 4
    ensures Reached(guard, dialed, offered, Start(dialed, offered))
  {
    var states, moves: seq<Move> := [Start(dialed, offered)], [];
    assert IsRun(guard, dialed, offered, states, moves);
    assert Start(dialed, offered) in states;
  }

  // ---------------------------------------------------------------------------------------------
  // What one side has read is what the other side has sent
  // ---------------------------------------------------------------------------------------------

  /** Frames read and frames sent agree as far as both go. */
  lemma FramesAgree(guard: nat, writer: Endpoint, reader: Endpoint)
    requires Wire(guard, writer) && Wire(guard, reader) && reader.hist.inp <= writer.hist.out
    ensures reader.hist.received <= writer.hist.sent || writer.hist.sent <= reader.hist.received
    ensures |reader.hist.received| > |writer.hist.sent| ==> writer.hist.appOut != []
    ensures reader.hist.received == writer.hist.sent ==> reader.hist.appIn <= writer.hist.appOut
  {
    hide Header, Length;
    var r, w := reader.hist, writer.hist;
    var x := reader.codec.decoder.Partial() + r.appIn;
    assert Encoded(r.received) + x <= w.out <= w.out + writer.codec.writeBuffer == Encoded(w.sent) + w.appOut;
    Comparable(r.received, x, w.sent, w.appOut);
    if |r.received| > |w.sent| {
      LongerEncoding(w.sent, r.received);
      assert |Encoded(w.sent) + w.appOut| > |Encoded(w.sent)|;
    }
    if r.received == w.sent {
      PrefixCancel(Encoded(w.sent), x, w.appOut);
      if r.appIn != [] {
        assert reader.codec.decoder.Partial() == [];
        assert x == r.appIn;
      }
    }
  }

  predicate Accepted(listener: Endpoint)
  {
    var h := listener.hist;
    |h.sent| > 0 && h.sent[|h.sent| - 1] != NA
  }

  /** The dialer's decoder never runs past the listener's answers. */
  lemma NoOverrun(guard: nat, dialed: seq<Info>, offered: seq<Info>, s: Session)
    requires Inv(guard, dialed, offered, s)
    ensures s.dialer.hist.received <= s.listener.hist.sent
  {
    hide Header, Length, Frame, Encoded, Feed;
    FramesAgree(guard, s.listener, s.dialer);
    FramesAgree(guard, s.dialer, s.listener);
  }

  // ---------------------------------------------------------------------------------------------
  // Agreement and outcome
  // ---------------------------------------------------------------------------------------------

  /** The listener's list has a valid info with this name. */
  ghost predicate Offers(offered: seq<Info>, name: seq<Byte>)
  {
    exists info :: info in offered && IsProtocol(NameOf(info)) && NameOf(info) == name
  }

  ghost predicate FirstCommon(dialed: seq<Info>, offered: seq<Info>, i: int)
  {
    && 0 <= i < |dialed| && Offers(offered, NameOf(dialed[i]))
    && forall j | 0 <= j < i :: !Offers(offered, NameOf(dialed[j]))
  }

  ghost predicate NoCommon(dialed: seq<Info>, offered: seq<Info>)
  {
    forall j | 0 <= j < |dialed| :: !Offers(offered, NameOf(dialed[j]))
  }

  lemma FindMeansOffered(offered: seq<Info>, name: seq<Byte>)
    ensures Find(Supported(offered), name).Some? <==> Offers(offered, name)
  {
    if info :| info in offered && IsProtocol(NameOf(info)) && NameOf(info) == name {
      assert info in Supported(offered);
    }
  }

  /** The answer to a proposal the listener has read. */
  lemma Answered(guard: nat, dialed: seq<Info>, offered: seq<Info>, s: Session, i: nat)
    requires Inv(guard, dialed, offered, s) && i < |s.listener.hist.sent| && i < |s.dialer.hist.sent|
    ensures s.listener.hist.received[i] == NameOf(dialed[i])
    ensures s.listener.hist.sent[i] == if Offers(offered, NameOf(dialed[i])) then NameOf(dialed[i]) else NA
    ensures NameOf(dialed[i]) != NA
  {
    hide Header, Length, Frame, Encoded, Feed;
    FramesAgree(guard, s.dialer, s.listener);
    FindMeansOffered(offered, NameOf(dialed[i]));
    assert s.dialer.hist.sent[i] == NameOf(dialed[i]);
  }

  /** A completed dialer has read an answer to each of its proposals, the last one an echo. */
  lemma LockStep(guard: nat, dialed: seq<Info>, offered: seq<Info>, s: Session)
    requires Inv(guard, dialed, offered, s) && s.dialer.phase.Completed?
    ensures s.listener.hist.received == s.dialer.hist.sent && s.listener.hist.sent == s.dialer.hist.received
    ensures Accepted(s.listener)
  {
    hide Header, Length, Frame, Encoded, Feed, NameOf, Find, Supported, WriteSide, ReadSide;
    var d, l, k := s.dialer.hist, s.listener.hist, |s.dialer.hist.sent|;
    NoOverrun(guard, dialed, offered, s);
    FramesAgree(guard, s.dialer, s.listener);
    Answered(guard, dialed, offered, s, k - 1);
    assert d.received[k - 1] == l.sent[k - 1] == NameOf(dialed[k - 1]) != NA;
    assert |l.sent| == k;
  }

  /**
   Agreement. Whenever the dialer's stream is completed under a name, at once or lazily, the listener
   has already accepted that name, and the name is the first of the dialer's list that the listener
   offers.
   */
  lemma Agreement(guard: nat, dialed: seq<Info>, offered: seq<Info>, s: Session)
    requires Reached(guard, dialed, offered, s) && s.dialer.phase.Completed?
    ensures Accepted(s.listener)
    ensures s.listener.hist.sent[|s.listener.hist.sent| - 1] == NameOf(s.dialer.phase.info)
    ensures FirstCommon(dialed, offered, |s.dialer.hist.sent| - 1)
    ensures match s.listener.phase
      case Replying(choice) => choice.Some? && NameOf(choice.value) == NameOf(s.dialer.phase.info)
      case Completed(info) => NameOf(info) == NameOf(s.dialer.phase.info)
      case Failed(_) => true
      case _ => false
  {
    hide Header, Length, Frame, Encoded, Feed;
    ReachedInv(guard, dialed, offered, s);
    var k := |s.dialer.hist.sent|;
    LockStep(guard, dialed, offered, s);
    forall j | 0 <= j < k
      ensures Offers(offered, NameOf(dialed[j])) <==> j == k - 1
    {
      Answered(guard, dialed, offered, s, j);
    }
    Answered(guard, dialed, offered, s, k - 1);
  }

  lemma ProposedAll(dialed: seq<Info>, dialer: Endpoint)
    requires DialerProgress(dialed, dialer) && dialer.hist.appOut != []
    ensures dialer.phase.Completed? || |dialer.hist.sent| == |dialed|
  {
    hide Frame;
  }

  /** A listener that reads on has refused what it read before. */
  lemma RefusedBefore(offered: seq<Info>, listener: Endpoint, k: nat)
    requires ListenerProgress(offered, listener) && k < |listener.hist.received|
    ensures k <= |listener.hist.sent| && forall j | 0 <= j < k :: listener.hist.sent[j] == NA
  {
    hide Frame, Find, Supported, NameOf, Utf8, Decode;
  }

  /** The listener has read more frames than the dialer proposed: it is parsing application bytes. */
  lemma Overrun(guard: nat, dialed: seq<Info>, offered: seq<Info>, s: Session)
    requires Inv(guard, dialed, offered, s) && |s.listener.hist.received| > |s.dialer.hist.sent|
    ensures s.dialer.hist.appOut != [] && |s.dialer.hist.sent| == |dialed| && NoCommon(dialed, offered)
  {
    hide Header, Length, Frame, Encoded, Feed, Find, Supported, NameOf, DialerProgress, ListenerProgress;
    hide WriteSide, ReadSide;
    FramesAgree(guard, s.dialer, s.listener);
    ProposedAll(dialed, s.dialer);
    RefusedBefore(offered, s.listener, |s.dialer.hist.sent|);
    if s.dialer.phase.Completed? {
      LockStep(guard, dialed, offered, s);
    }
    forall j | 0 <= j < |dialed|
      ensures !Offers(offered, NameOf(dialed[j]))
    {
      Answered(guard, dialed, offered, s, j);
    }
  }

  /** A name accepted in answer to a proposal. */
  lemma AcceptedInTurn(guard: nat, dialed: seq<Info>, offered: seq<Info>, s: Session)
    requires Inv(guard, dialed, offered, s) && Accepted(s.listener)
    requires |s.listener.hist.sent| <= |s.dialer.hist.sent|
    ensures var n := |s.listener.hist.sent|;
      FirstCommon(dialed, offered, n - 1) && s.listener.hist.sent[n - 1] == NameOf(dialed[n - 1])
  {
    hide Header, Length, Frame, Encoded, Feed, Find, Supported, NameOf, WriteSide, ReadSide;
    var n := |s.listener.hist.sent|;
    forall j | 0 <= j < n
      ensures Offers(offered, NameOf(dialed[j])) <==> j == n - 1
    {
      Answered(guard, dialed, offered, s, j);
    }
    Answered(guard, dialed, offered, s, n - 1);
  }

  /** What a listener's stream is completed under. */
  lemma ListenerFinds(offered: seq<Info>, listener: Endpoint)
    requires ListenerProgress(offered, listener) && listener.phase.Completed?
    ensures var h := listener.hist;
      && |h.sent| > 0 && h.sent[|h.sent| - 1] == NameOf(listener.phase.info) && IsProtocol(NameOf(listener.phase.info))
      && Find(Supported(offered), h.sent[|h.sent| - 1]) == Some(listener.phase.info)
  {
    hide Frame, Encoded, Utf8;
  }

  /**
   Outcome for the listener. What it accepts is the first common name, unless the lists have none and
   it is parsing what the dialer's application wrote after the last proposal.
   */
  lemma ListenerOutcome(guard: nat, dialed: seq<Info>, offered: seq<Info>, s: Session)
    requires Reached(guard, dialed, offered, s) && Accepted(s.listener)
    ensures var n, name := |s.listener.hist.sent|, s.listener.hist.sent[|s.listener.hist.sent| - 1];
      || (FirstCommon(dialed, offered, n - 1) && name == NameOf(dialed[n - 1]))
      || (NoCommon(dialed, offered) && s.dialer.hist.appOut != [] && |s.dialer.hist.sent| == |dialed| < n)
    ensures s.listener.phase.Completed? ==>
      Find(Supported(offered), s.listener.hist.sent[|s.listener.hist.sent| - 1]) == Some(s.listener.phase.info)
  {
    hide Header, Length, Frame, Encoded, Feed, Find, Supported, NameOf, WriteSide, ReadSide;
    hide FirstCommon, NoCommon, Offers;
    ReachedInv(guard, dialed, offered, s);
    if |s.listener.hist.sent| > |s.dialer.hist.sent| {
      Overrun(guard, dialed, offered, s);
    } else {
      AcceptedInTurn(guard, dialed, offered, s);
    }
    if s.listener.phase.Completed? {
      ListenerFinds(offered, s.listener);
    }
  }

  /**
   Without a common name the dialer never completes; once it has read an answer to every name of its
   list it has failed with `NegotiationError::Failed`; and a listener to which no application byte was
   written accepts nothing.
   */
  lemma NoCommonOutcome(guard: nat, dialed: seq<Info>, offered: seq<Info>, s: Session)
    requires Reached(guard, dialed, offered, s) && NoCommon(dialed, offered)
    ensures !s.dialer.phase.Completed?
    ensures |s.dialer.hist.received| == |dialed| ==> s.dialer.phase == Failed(NoAgreement)
    ensures s.dialer.hist.appOut == [] ==> !Accepted(s.listener)
  {
    hide Header, Length, Frame, Encoded, Feed, NameOf, Utf8, Supported, Find;
    ReachedInv(guard, dialed, offered, s);
    if s.dialer.phase.Completed? {
      Agreement(guard, dialed, offered, s);
    }
    if Accepted(s.listener) {
      ListenerOutcome(guard, dialed, offered, s);
    }
    if |s.dialer.hist.received| == |dialed| > 0 {
      Refused(guard, dialed, offered, s, |dialed| - 1);
    }
  }

  /** What the dialer reads in answer to a name that is not offered. */
  lemma Refused(guard: nat, dialed: seq<Info>, offered: seq<Info>, s: Session, j: nat)
    requires Inv(guard, dialed, offered, s) && j < |s.dialer.hist.received| && j < |s.dialer.hist.sent|
    requires !Offers(offered, NameOf(dialed[j]))
    ensures s.dialer.hist.received[j] == NA != s.dialer.hist.sent[j]
  {
    hide Header, Length, Frame, Encoded, Feed, Utf8, Supported, Find;
    NoOverrun(guard, dialed, offered, s);
    Answered(guard, dialed, offered, s, j);
  }

  /**
   A dialer that has read an answer to each of its proposals and fails has tried its whole list, the
   listener offers none of it, and the error is `NegotiationError::Failed`.
   */
  lemma DialerGivesUp(guard: nat, dialed: seq<Info>, offered: seq<Info>, s: Session)
    requires Reached(guard, dialed, offered, s) && s.dialer.phase.Failed?
    requires |s.dialer.hist.received| == |s.dialer.hist.sent| && forall info | info in dialed :: Sendable(info)
    ensures |s.dialer.hist.sent| == |dialed| && NoCommon(dialed, offered)
    ensures s.dialer.phase == Failed(NoAgreement)
  {
    hide Header, Length, Frame, Encoded, Feed;
    ReachedInv(guard, dialed, offered, s);
    NoOverrun(guard, dialed, offered, s);
    var d, k := s.dialer.hist, |s.dialer.hist.sent|;
    forall j | 0 <= j < k
      ensures !Offers(offered, NameOf(dialed[j])) && d.received[j] == NA
    {
      Answered(guard, dialed, offered, s, j);
    }
  }

  // ---------------------------------------------------------------------------------------------
  // Handover
  // ---------------------------------------------------------------------------------------------

  /**
   Transparent handover: with a common name, what each application reads is a prefix of what the other
   wrote, and the listener's frame reader took the proposals and nothing else.
   */
  lemma Handover(guard: nat, dialed: seq<Info>, offered: seq<Info>, s: Session)
    requires Reached(guard, dialed, offered, s) && !NoCommon(dialed, offered)
    ensures s.dialer.hist.appIn <= s.listener.hist.appOut
    ensures s.listener.hist.appIn <= s.dialer.hist.appOut
    ensures s.listener.hist.received <= s.dialer.hist.sent
    ensures s.listener.phase.Completed? ==> s.listener.hist.received == s.dialer.hist.sent
  {
    hide Header, Length, Frame, Encoded, Feed;
    ReachedInv(guard, dialed, offered, s);
    var d, l := s.dialer.hist, s.listener.hist;
    FramesAgree(guard, s.dialer, s.listener);
    FramesAgree(guard, s.listener, s.dialer);
    NoOverrun(guard, dialed, offered, s);
    if |l.received| > |d.sent| {
      Overrun(guard, dialed, offered, s);
    }
    if s.dialer.phase.Completed? {
      LockStep(guard, dialed, offered, s);
    }
  }

  /**
   The assertions of `into_inner` hold at every hand-over, even after a tolerated WriteZero: an echo of
   the last proposal means that the proposal had been written.
   */
  lemma NoPanic(guard: nat, dialed: seq<Info>, offered: seq<Info>, s: Session)
    requires Reached(guard, dialed, offered, s)
    ensures !s.dialer.phase.Panicked? && !s.listener.phase.Panicked?
  {
    hide Header, Length;
    ReachedInv(guard, dialed, offered, s);
    var d, l := s.dialer.hist, s.listener.hist;
    NoOverrun(guard, dialed, offered, s);
    FramesAgree(guard, s.dialer, s.listener);
    if s.dialer.phase.Panicked? {
      LongerEncoding(d.sent, l.received);
    }
  }

  // ---------------------------------------------------------------------------------------------
  // Deadlock freedom
  // ---------------------------------------------------------------------------------------------

  /** The side is about to read for the negotiation, and nothing is within reach: the read is Pending. */
  predicate Waits(ep: Endpoint, visible: nat)
  {
    && (ep.phase.Awaiting? || ep.phase.Receiving? || (ep.phase.Expecting? && !ep.phase.status.Unflushed?))
    && visible == |ep.hist.inp|
  }

  /** Neither side goes on by itself, and not because both are through. */
  predicate Stuck(s: Session)
  {
    && (s.dialer.phase.Completed? || Waits(s.dialer, s.down))
    && (s.listener.phase.Completed? || Waits(s.listener, s.up))
    && !(s.dialer.phase.Completed? && s.listener.phase.Completed?)
  }

  /** The dialer has gone on to read the answer although its last proposal has not gone out. */
  predicate WaitsUnsent(dialer: Endpoint)
  {
    && dialer.phase.Expecting? && dialer.phase.status.Tolerated?
    && dialer.hist.flushed < |Encoded(dialer.hist.sent)|
  }

  /** A side that has read all that was flushed has returned every frame of it. */
  lemma AllFramesReturned(guard: nat, writer: Endpoint, reader: Endpoint, visible: nat)
    requires Wire(guard, writer) && Wire(guard, reader) && Pipe(writer, reader, visible)
    requires Waits(reader, visible) && writer.hist.flushed >= |Encoded(writer.hist.sent)|
    ensures writer.hist.sent <= reader.hist.received
  {
    hide Header, Length;
    var r, w := reader.hist, writer.hist;
    var x := reader.codec.decoder.Partial();
    assert r.appIn == [] && x + [] == x;
    assert Encoded(w.sent) + [] == Encoded(w.sent);
    assert Encoded(w.sent) <= r.inp by {
      assert r.inp <= w.out <= w.out + writer.codec.writeBuffer;
      assert Encoded(w.sent) <= Encoded(w.sent) + w.appOut;
    }
    NoFrameLeft(r.received, x, w.sent, []);
  }

  /** The whole of `out` is out: nothing is left in the buffer or unflushed. */
  lemma AllSent(guard: nat, ep: Endpoint)
    requires Wire(guard, ep) && ep.codec.writeBuffer == [] && ep.hist.flushed == |ep.hist.out|
    ensures ep.hist.flushed >= |Encoded(ep.hist.sent)|
  {
    assert ep.hist.out + [] == ep.hist.out;
  }

  lemma DialerNotStuck(guard: nat, dialed: seq<Info>, offered: seq<Info>, s: Session)
    requires Inv(guard, dialed, offered, s) && Waits(s.dialer, s.down) && !WaitsUnsent(s.dialer)
    ensures !(s.listener.phase.Completed? || Waits(s.listener, s.up))
  {
    hide Header, Length, Frame, Encoded, Feed;
    var d, l := s.dialer.hist, s.listener.hist;
    if d.flushed < |Encoded(d.sent)| {
      AllSent(guard, s.dialer);
    }
    NoOverrun(guard, dialed, offered, s);
    if Waits(s.listener, s.up) {
      AllSent(guard, s.listener);
      AllFramesReturned(guard, s.dialer, s.listener, s.up);
      AllFramesReturned(guard, s.listener, s.dialer, s.down);
    } else if s.listener.phase.Completed? {
      CompletedListenerIsHeard(guard, dialed, offered, s);
    }
  }

  /** A listener completes only when its echo is flushed, and a dialer that finds nothing to read has read it. */
  lemma CompletedListenerIsHeard(guard: nat, dialed: seq<Info>, offered: seq<Info>, s: Session)
    requires Inv(guard, dialed, offered, s) && s.listener.phase.Completed?
    ensures !Waits(s.dialer, s.down)
  {
    hide Header, Length, Frame, Encoded, Feed;
    if Waits(s.dialer, s.down) {
      NoOverrun(guard, dialed, offered, s);
      AllFramesReturned(guard, s.listener, s.dialer, s.down);
      Answered(guard, dialed, offered, s, |s.listener.hist.sent| - 1);
      EchoedEarly(guard, dialed, offered, s);
    }
  }

  /**
   The only deadlock: a session gets stuck only when the dialer, after a tolerated WriteZero, waits for
   the answer to a proposal that it still has to write or flush. `Scenarios.StuckIff` says when it does.
   */
  lemma StuckAfterWriteZero(guard: nat, dialed: seq<Info>, offered: seq<Info>, s: Session)
    requires Reached(guard, dialed, offered, s) && Stuck(s)
    ensures WaitsUnsent(s.dialer)
  {
    hide WaitsUnsent;
    ReachedInv(guard, dialed, offered, s);
    if s.dialer.phase.Completed? {
      Agreement(guard, dialed, offered, s);
    } else if !WaitsUnsent(s.dialer) {
      DialerNotStuck(guard, dialed, offered, s);
    }
  }

  /** Without that, when neither side goes on, both are completed under the same name. */
  lemma NoDeadlock(guard: nat, dialed: seq<Info>, offered: seq<Info>, s: Session)
    requires Reached(guard, dialed, offered, s) && !WaitsUnsent(s.dialer)
    requires s.dialer.phase.Completed? || Waits(s.dialer, s.down)
    requires s.listener.phase.Completed? || Waits(s.listener, s.up)
    ensures s.dialer.phase.Completed? && s.listener.phase.Completed?
    ensures NameOf(s.dialer.phase.info) == NameOf(s.listener.phase.info)
  {
    hide WaitsUnsent, Waits, Reached;
    if Stuck(s) {
      StuckAfterWriteZero(guard, dialed, offered, s);
    }
    Agreement(guard, dialed, offered, s);
  }

  /** An echo the dialer has read ends its negotiation. */
  lemma EchoedEarly(guard: nat, dialed: seq<Info>, offered: seq<Info>, s: Session)
    requires Inv(guard, dialed, offered, s) && s.dialer.hist.received == s.listener.hist.sent
    requires |s.dialer.hist.received| <= |s.dialer.hist.sent| && Accepted(s.listener)
    ensures s.dialer.phase.Completed? || s.dialer.phase.Panicked?
  {
    Answered(guard, dialed, offered, s, |s.listener.hist.sent| - 1);
  }

  // ---------------------------------------------------------------------------------------------
  // Termination
  // ---------------------------------------------------------------------------------------------

  /** The bytes of one frame for each info, with `slack` bytes more than its name. */
  function FrameBytes(infos: seq<Info>, slack: nat): (n: nat)
  {
    if infos == [] then 0 else 4 + |NameOf(infos[0])| + slack + FrameBytes(infos[1..], slack)
  }

  lemma {:induction false} EncodingWithin(frames: seq<Payload>, infos: seq<Info>, slack: nat)
    requires |frames| <= |infos|
    requires forall i | 0 <= i < |frames| :: |frames[i]| <= |NameOf(infos[i])| + slack
    ensures |Encoded(frames)| <= FrameBytes(infos, slack)
  {
    hide Header;
    if frames != [] {
      assert forall i | 0 <= i < |frames[1..]| :: frames[1..][i] == frames[i + 1] && infos[1..][i] == infos[i + 1];
      EncodingWithin(frames[1..], infos[1..], slack);
    }
  }

  /** How many bytes a negotiation can take, as long as the dialer's application is silent. */
  lemma BytesBounded(guard: nat, dialed: seq<Info>, offered: seq<Info>, s: Session)
    requires Inv(guard, dialed, offered, s) && s.dialer.hist.appOut == [] == s.listener.hist.appOut
    ensures |s.listener.hist.inp| <= |s.dialer.hist.out| <= FrameBytes(dialed, 0)
    ensures |s.dialer.hist.inp| <= |s.listener.hist.out| <= FrameBytes(dialed, 1)
  {
    hide Header, Length, Frame, Encoded;
    var d, l := s.dialer.hist, s.listener.hist;
    FramesAgree(guard, s.dialer, s.listener);
    assert |Encoded(d.sent) + []| == |Encoded(d.sent)| && |Encoded(l.sent) + []| == |Encoded(l.sent)|;
    EncodingWithin(d.sent, dialed, 0);
    forall i | 0 <= i < |l.sent|
      ensures |l.sent[i]| <= |NameOf(dialed[i])| + 1
    {
      Answered(guard, dialed, offered, s, i);
      assert d.sent[i] == NameOf(dialed[i]) && |d.sent[i]| >= 1;
    }
    EncodingWithin(l.sent, dialed, 1);
  }

  /** Moves that carry at least one byte. */
  function Exchanges(moves: seq<Move>): (n: nat)
  {
    if moves == [] then 0
    else
      var e := match moves[|moves| - 1] case Dial(e) => e case Listen(e) => e case Transit(_, _) => ReadPending;
      Exchanges(moves[..|moves| - 1]) + (if (e.Read? || e.Wrote?) && e.data != [] then 1 else 0)
  }

  lemma {:induction false} ExchangesCounted(guard: nat, dialed: seq<Info>, offered: seq<Info>,
        states: seq<Session>, moves: seq<Move>)
    requires IsRun(guard, dialed, offered, states, moves)
    ensures var s := states[|moves|];
      Exchanges(moves) <= |s.dialer.hist.out| + |s.dialer.hist.inp| + |s.listener.hist.out| + |s.listener.hist.inp|
    decreases |moves|
  {
    hide Step, FaithfulEvent, Start;
    if moves != [] {
      var n := |moves| - 1;
      ExchangesCounted(guard, dialed, offered, states[..n + 1], moves[..n]);
      assert Next(guard, states[n], moves[n], states[n + 1]);
      match moves[n]
      case Dial(e) => StepHistory(guard, states[n].dialer, e);
      case Listen(e) => StepHistory(guard, states[n].listener, e);
      case Transit(_, _) =>
    }
  }

  /**
   A negotiation is finite in every run, whatever the chunking: as long as no application byte has been
   written, the number of I/O calls that moved anything is bounded by the dialer's list.
   */
  lemma NegotiationIsFinite(guard: nat, dialed: seq<Info>, offered: seq<Info>, states: seq<Session>, moves: seq<Move>)
    requires IsRun(guard, dialed, offered, states, moves)
    requires states[|moves|].dialer.hist.appOut == [] == states[|moves|].listener.hist.appOut
    ensures Exchanges(moves) <= 2 * FrameBytes(dialed, 0) + 2 * FrameBytes(dialed, 1)
  {
    RunKeepsInv(guard, dialed, offered, states, moves, |moves|);
    BytesBounded(guard, dialed, offered, states[|moves|]);
    ExchangesCounted(guard, dialed, offered, states, moves);
  }
}
