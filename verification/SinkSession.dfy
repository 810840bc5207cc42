/**
 A session whose byte pipes are `RwStreamSink`s: every write is one item, and no read goes past the end
 of an item. Then no header of the negotiation is parsed short, whatever the guard: the results of
 `Session.dfy` hold of the code as written.
 */
module SinkSessions {
  import opened Prelude
  import opened Frames
  import opened Messages
  import opened FrameDecoder
  import opened StreamIo
  import opened LengthDelimitedCodec
  import opened Endpoints
  import opened LocalInvariants
  import opened Session
  import opened Shadows
  import opened RwStreamSinks
  import opened FrameLink

  /** `up` and `down` are the items of each direction not used up, the first perhaps begun. */
  datatype SinkSession = SinkSession(s: Session, up: seq<seq<Byte>>, down: seq<seq<Byte>>)

  /** A write takes the whole buffer it is offered, as one item. */
  predicate Puts(w: Endpoint, items: seq<seq<Byte>>, e: Event, more: seq<seq<Byte>>)
  {
    if e.Wrote? then more == items + [e.data] && (w.codec.writeBuffer != [] ==> e.data == w.codec.writeBuffer)
    else more == items
  }

  /** A read delivers what `RwStreamSink` does: to the codec as much as it asks for, to an application any part. */
  predicate Takes(guard: nat, r: Endpoint, items: seq<seq<Byte>>, e: Event, rest: seq<seq<Byte>>)
    requires guard <= 4 && r.codec.decoder.Valid(guard)
  {
    if e.Read? && e.data != [] then
      SinkRead(items, if r.phase.Completed? then |e.data| else r.codec.decoder.Want()) == Some((e.data, rest))
    else rest == items
  }

  predicate SinkNext(guard: nat, t: SinkSession, m: Move, t': SinkSession)
  {
    && Happens(guard, t.s, m, t'.s)
    && match m
       case Dial(e) => Puts(t.s.dialer, t.up, e, t'.up) && Takes(guard, t.s.dialer, t.down, e, t'.down)
       case Listen(e) => Puts(t.s.listener, t.down, e, t'.down) && Takes(guard, t.s.listener, t.up, e, t'.up)
       case Transit(_, _) => t'.up == t.up && t'.down == t.down
  }

  predicate IsSinkRun(guard: nat, dialed: seq<Info>, offered: seq<Info>, states: seq<SinkSession>, moves: seq<Move>)
  {
    && 1 <= guard <= 4
    && |states| == |moves| + 1 && states[0] == SinkSession(Start(dialed, offered), [], [])
    && forall i | 0 <= i < |moves| :: SinkNext(guard, states[i], moves[i], states[i + 1])
  }

  // ---------------------------------------------------------------------------------------------
  // Items and frames
  // ---------------------------------------------------------------------------------------------

  /** At the start of a frame, or of its payload. */
  predicate Begun(d: Decoder)
  {
    d.Valid(1) && (d.state.ReadData? ==> d.state.pos == 0)
  }

  /** The next `m` bytes are of the negotiation: items end where frames end, and so do these bytes. */
  ghost predicate Lined(d: Decoder, items: seq<seq<Byte>>, m: nat)
    requires Begun(d)
    decreases |items|
  {
    if m == 0 then d == START
    else
      && items != []
      && if items[0] == [] then Lined(d, items[1..], m)
         else
           && |items[0]| <= m && WholeFrames(d.Partial() + items[0])
           && Lined(START, items[1..], m - |items[0]|)
  }

  /** A read of the codec gets a whole header or a whole payload. */
  lemma {:induction false} ReadLined(guard: nat, d: Decoder, items: seq<seq<Byte>>, m: nat,
        chunk: seq<Byte>, rest: seq<seq<Byte>>)
    requires 1 <= guard <= 4 && Begun(d) && m > 0 && Lined(d, items, m)
    requires SinkRead(items, d.Want()) == Some((chunk, rest))
    ensures d.Valid(guard) && 0 < |chunk| <= m && |chunk| <= d.Want() && Faithful(guard, d, chunk)
    ensures var next := Feed(guard, d, chunk).next; Begun(next) && Lined(next, rest, m - |chunk|)
    decreases |items|
  {
    hide Header, Length, Encoded, Feed, Flatten;
    if items[0] == [] {
      ReadLined(guard, d, items[1..], m, chunk, rest);
    } else {
      FirstItemAligned(guard, d, items[0]);
      FirstItemRead(items, d.Want());
      assert chunk == items[0][..d.Want()];
      var next, left := Feed(guard, d, chunk).next, items[0][d.Want()..];
      assert rest[0] == left && rest[1..] == items[1..];
      if left == [] {
        if next.state.ReadData? {
          PartialNeedsMore(next);
        } else {
          NothingRead(1, next);
        }
      }
    }
  }

  lemma {:induction false} LinedDrain(d: Decoder, items: seq<seq<Byte>>, m: nat, buffer: seq<Byte>)
    requires Begun(d) && Lined(d, items, m) && |Flatten(items)| == m
    requires buffer != [] && WholeFrames(buffer)
    ensures Lined(d, items + [buffer], m + |buffer|)
    decreases |items|
  {
    hide Flatten, WholeFrames;
    var more := items + [buffer];
    if items == [] {
      assert Flatten(items) == [] by { NoItems(); }
      assert START.Partial() + buffer == buffer;
    } else {
      FlattenFront(items);
      assert more[0] == items[0] && more[1..] == items[1..] + [buffer];
      LinedDrain(if items[0] == [] then d else START, items[1..], m - |items[0]|, buffer);
    }
  }

  lemma NoItems()
    ensures Flatten<Byte>([]) == []
  {
  }

  lemma {:induction false} LinedMore(d: Decoder, items: seq<seq<Byte>>, m: nat, item: seq<Byte>)
    requires Begun(d) && Lined(d, items, m)
    ensures Lined(d, items + [item], m)
    decreases |items|
  {
    hide WholeFrames;
    if m > 0 {
      assert (items + [item])[0] == items[0] && (items + [item])[1..] == items[1..] + [item];
      if items[0] == [] {
        LinedMore(d, items[1..], m, item);
      } else {
        LinedMore(START, items[1..], m - |items[0]|, item);
      }
    }
  }

  // ---------------------------------------------------------------------------------------------
  // One direction
  // ---------------------------------------------------------------------------------------------

  /** How many bytes of the negotiation are written and not read. */
  function Unread(w: Endpoint, r: Endpoint): (m: int)
  {
    |w.hist.out| - |w.hist.appOut| - |r.hist.inp|
  }

  predicate Negotiating(r: Endpoint)
  {
    !r.phase.Completed? && !r.phase.Final()
  }

  /** The items are the bytes written and not read; the write buffer will be a whole number of frames. */
  ghost predicate Piped(w: Endpoint, r: Endpoint, items: seq<seq<Byte>>)
  {
    w.hist.out == r.hist.inp + Flatten(items) && WholeFrames(w.codec.writeBuffer)
  }

  /** And as long as the reader negotiates it is in step with the frames. */
  ghost predicate Channel(w: Endpoint, r: Endpoint, items: seq<seq<Byte>>)
  {
    && Piped(w, r, items)
    && (Negotiating(r) ==> Begun(r.codec.decoder) && Unread(w, r) >= 0 && Lined(r.codec.decoder, items, Unread(w, r)))
  }

  /** The buffer holds whole frames as long as it is drained at once. */
  lemma StepBuffers(guard: nat, w: Endpoint, e: Event)
    requires 1 <= guard <= 4 && w.codec.decoder.Valid(guard) && Step(guard, w, e).Some?
    requires WholeFrames(w.codec.writeBuffer)
    requires e.Wrote? && w.codec.writeBuffer != [] ==> e.data == w.codec.writeBuffer
    ensures WholeFrames(Step(guard, w, e).value.codec.writeBuffer)
  {
    hide Header, Length, Frame, Feed, Encoded, React, WholeFrames, Settle;
    if !w.phase.Completed? {
      var s := CodecStep(guard, w.codec, e);
      NoFrames();
      assert w.codec.writeBuffer[|w.codec.writeBuffer|..] == [];
      assert s.next.writeBuffer in {w.codec.writeBuffer, []};
      SettleBuffers(React(w.(codec := s.next, hist := Record(w.hist, e)), s.outcome));
    }
  }

  lemma NoFrames()
    ensures WholeFrames([])
  {
    var none: seq<Payload> := [];
    assert Encoded(none) == [];
  }

  lemma SettleBuffers(ep: Endpoint)
    requires WholeFrames(ep.codec.writeBuffer)
    ensures WholeFrames(Settle(ep).codec.writeBuffer)
  {
    hide Header, Length, Frame, Encoded, NameOf;
    var ps: seq<Payload> :| ep.codec.writeBuffer == Encoded(ps);
    forall p: Payload
      ensures WholeFrames(ep.codec.writeBuffer + Frame(p))
    {
      EncodedAppend(ps, p);
    }
  }

  lemma WriterKeepsPipe(guard: nat, w: Endpoint, r: Endpoint, items: seq<seq<Byte>>, e: Event, more: seq<seq<Byte>>)
    requires 1 <= guard <= 4 && w.codec.decoder.Valid(guard) && Piped(w, r, items)
    requires Step(guard, w, e).Some? && Puts(w, items, e, more)
    ensures Piped(Step(guard, w, e).value, r, more)
  {
    hide Header, Length, Frame, Encoded, Feed, Step, Flatten, WholeFrames;
    StepHistory(guard, w, e);
    StepBuffers(guard, w, e);
    if e.Wrote? {
      FlattenAppend(items, e.data);
      Assoc(r.hist.inp, Flatten(items), e.data);
    }
  }

  /** The writer moves. */
  lemma WriterKeeps(guard: nat, w: Endpoint, r: Endpoint, items: seq<seq<Byte>>, e: Event, more: seq<seq<Byte>>)
    requires WriteSide(guard, w) && Channel(w, r, items) && Step(guard, w, e).Some? && Puts(w, items, e, more)
    ensures Channel(Step(guard, w, e).value, r, more)
  {
    hide Header, Length, Frame, Encoded, Feed, Step, Flatten, WholeFrames, Lined;
    WriterKeepsPipe(guard, w, r, items, e, more);
    StepHistory(guard, w, e);
    RecordsGrow(guard, w, e);
    if e.Wrote? && Negotiating(r) {
      if w.codec.writeBuffer == [] {
        LinedMore(r.codec.decoder, items, Unread(w, r), e.data);
      } else {
        LinedDrain(r.codec.decoder, items, Unread(w, r), e.data);
      }
    }
  }

  lemma ReaderKeepsPipe(guard: nat, w: Endpoint, r: Endpoint, items: seq<seq<Byte>>, e: Event, rest: seq<seq<Byte>>)
    requires 1 <= guard <= 4 && r.codec.decoder.Valid(guard) && Piped(w, r, items)
    requires Step(guard, r, e).Some? && Takes(guard, r, items, e, rest)
    ensures Piped(w, Step(guard, r, e).value, rest)
  {
    hide Step, Flatten, WholeFrames, SinkRead;
    StepHistory(guard, r, e);
    if e.Read? && e.data != [] {
      Assoc(r.hist.inp, e.data, Flatten(rest));
    } else if e.Read? {
      assert r.hist.inp + [] == r.hist.inp;
    }
  }

  /** The reader moves, not into the application bytes while it still negotiates. */
  lemma ReaderKeeps(guard: nat, w: Endpoint, r: Endpoint, items: seq<seq<Byte>>, e: Event, rest: seq<seq<Byte>>)
    requires 1 <= guard <= 4 && r.codec.decoder.Valid(guard) && Channel(w, r, items)
    requires Step(guard, r, e).Some? && Takes(guard, r, items, e, rest)
    requires e.Read? && e.data != [] && Negotiating(r) ==> Unread(w, r) > 0
    ensures FaithfulEvent(guard, r, e) && Channel(w, Step(guard, r, e).value, rest)
  {
    hide Header, Length, Frame, Encoded, Feed, React, Settle, Flatten, WholeFrames, Lined, SinkRead;
    ReaderKeepsPipe(guard, w, r, items, e, rest);
    StepHistory(guard, r, e);
    assert !r.phase.Final();
    if e.Read? && e.data != [] && Negotiating(r) {
      ReadLined(guard, r.codec.decoder, items, Unread(w, r), e.data, rest);
    }
    if !r.phase.Completed? {
      SettleRecorded(React(Observed(guard, r, e), CodecStep(guard, r.codec, e).outcome));
    }
  }

  // ---------------------------------------------------------------------------------------------
  // A side that still negotiates has frames to read
  // ---------------------------------------------------------------------------------------------

  /** A read while there is nothing of the negotiation to read would have to be of application bytes. */
  lemma SomethingToRead(guard: nat, w: Endpoint, r: Endpoint, items: seq<seq<Byte>>, e: Event, rest: seq<seq<Byte>>)
    requires guard <= 4 && r.codec.decoder.Valid(guard) && Channel(w, r, items) && Takes(guard, r, items, e, rest)
    requires e.Read? && e.data != [] && Negotiating(r) && Unread(w, r) <= 0
    ensures Unread(w, r) == 0 && w.hist.appOut != [] && r.codec.decoder == START
  {
    hide SinkRead, Flatten;
  }

  /** All that the peer sent for the negotiation has been read, and the peer has gone on to application bytes. */
  lemma AllRead(guard: nat, w: Endpoint, r: Endpoint)
    requires WriteSide(guard, w) && Wire(guard, r) && r.hist.inp <= w.hist.out
    requires Unread(w, r) == 0 && w.hist.appOut != [] && !r.phase.Completed? && r.codec.decoder == START
    ensures r.hist.received == w.hist.sent
  {
    hide Header, Length, Encoded;
    assert w.hist.out + [] == w.hist.out;
    assert r.hist.inp == Encoded(w.hist.sent) == Encoded(w.hist.sent) + [];
    assert START.Partial() + r.hist.appIn == [];
    UniqueParse(r.hist.received, [], w.hist.sent, []);
  }

  // ---------------------------------------------------------------------------------------------
  // Every run
  // ---------------------------------------------------------------------------------------------

  /** Until the listener parses application bytes the session is one of faithful reads; then it has a shadow. */
  ghost predicate SinkInv(guard: nat, dialed: seq<Info>, offered: seq<Info>, t: SinkSession, o: Session, lost: bool)
  {
    && Reached(guard, dialed, offered, o) && Inv(guard, dialed, offered, o) && SidesInv(guard, dialed, offered, t.s)
    && Shadow(dialed, offered, t.s, o, lost) && o.dialer == t.s.dialer && (lost || o == t.s)
    && Channel(t.s.listener, t.s.dialer, t.down)
    && if lost then Piped(t.s.dialer, t.s.listener, t.up) else Channel(t.s.dialer, t.s.listener, t.up)
  }

  lemma DialerReadsFrames(guard: nat, dialed: seq<Info>, offered: seq<Info>,
        t: SinkSession, o: Session, lost: bool, e: Event, rest: seq<seq<Byte>>)
    requires SinkInv(guard, dialed, offered, t, o, lost) && Step(guard, t.s.dialer, e).Some?
    requires Takes(guard, t.s.dialer, t.down, e, rest) && e.Read? && e.data != [] && Negotiating(t.s.dialer)
    ensures Unread(t.s.listener, t.s.dialer) > 0
  {
    hide Header, Length, Frame, Encoded, Feed, NameOf, DialerProgress, ListenerProgress, Takes, Step, Reached, NoCommon;
    var d, l := t.s.dialer, t.s.listener;
    if Unread(l, d) <= 0 {
      SomethingToRead(guard, l, d, t.down, e, rest);
      AllRead(guard, l, d);
      OneToCome(guard, dialed, d, e);
      if !lost {
        DialerHasFrames(guard, dialed, offered, o);
      }
    }
  }

  lemma ListenerReadsFrames(guard: nat, dialed: seq<Info>, offered: seq<Info>,
        t: SinkSession, m: Move, rest: seq<seq<Byte>>)
    requires SinkInv(guard, dialed, offered, t, t.s, false) && m.Listen? && Step(guard, t.s.listener, m.e).Some?
    requires Takes(guard, t.s.listener, t.up, m.e, rest)
    requires m.e.Read? && m.e.data != [] && Negotiating(t.s.listener)
    ensures Unread(t.s.dialer, t.s.listener) > 0 || Parses(dialed, offered, t.s.listener, m)
  {
    hide Header, Length, Frame, Encoded, Feed, NameOf, DialerProgress, ListenerProgress, Takes, Step, Reached, NoCommon;
    var d, l := t.s.dialer, t.s.listener;
    if Unread(d, l) <= 0 {
      SomethingToRead(guard, d, l, t.up, m.e, rest);
      AllRead(guard, d, l);
      ReadsWhenReceiving(guard, offered, l, m.e);
      NothingInCommon(guard, dialed, offered, t.s);
    }
  }

  lemma SinkDials(guard: nat, dialed: seq<Info>, offered: seq<Info>,
        t: SinkSession, o: Session, lost: bool, m: Move, t': SinkSession)
    requires SinkInv(guard, dialed, offered, t, o, lost) && SinkNext(guard, t, m, t') && m.Dial?
    ensures FaithfulEvent(guard, t.s.dialer, m.e) && Channel(t'.s.listener, t'.s.dialer, t'.down)
    ensures if lost then Piped(t'.s.dialer, t'.s.listener, t'.up) else Channel(t'.s.dialer, t'.s.listener, t'.up)
  {
    hide Step, Channel, Piped, Puts, Takes, DialerProgress, ListenerProgress, NoCommon, Permits, FaithfulEvent, Encoded;
    var d, l := t.s.dialer, t.s.listener;
    if m.e.Read? && m.e.data != [] && Negotiating(d) {
      DialerReadsFrames(guard, dialed, offered, t, o, lost, m.e, t'.down);
    }
    ReaderKeeps(guard, l, d, t.down, m.e, t'.down);
    if lost {
      WriterKeepsPipe(guard, d, l, t.up, m.e, t'.up);
    } else {
      WriterKeeps(guard, d, l, t.up, m.e, t'.up);
    }
  }

  lemma SinkListens(guard: nat, dialed: seq<Info>, offered: seq<Info>,
        t: SinkSession, o: Session, lost: bool, m: Move, t': SinkSession)
    requires SinkInv(guard, dialed, offered, t, o, lost) && SinkNext(guard, t, m, t') && m.Listen?
    ensures Channel(t'.s.listener, t'.s.dialer, t'.down)
    ensures if lost || Parses(dialed, offered, t.s.listener, m)
      then Piped(t'.s.dialer, t'.s.listener, t'.up)
      else FaithfulEvent(guard, t.s.listener, m.e) && Channel(t'.s.dialer, t'.s.listener, t'.up)
  {
    hide Step, Lined, Puts, Takes, DialerProgress, ListenerProgress, NoCommon, Permits, FaithfulEvent, Encoded;
    hide Flatten, WholeFrames, Parses;
    var d, l := t.s.dialer, t.s.listener;
    WriterKeeps(guard, l, d, t.down, m.e, t'.down);
    if lost || Parses(dialed, offered, l, m) {
      ReaderKeepsPipe(guard, d, l, t.up, m.e, t'.up);
    } else {
      if m.e.Read? && m.e.data != [] && Negotiating(l) {
        ListenerReadsFrames(guard, dialed, offered, t, m, t'.up);
      }
      ReaderKeeps(guard, d, l, t.up, m.e, t'.up);
    }
  }

  lemma SinkStep(guard: nat, dialed: seq<Info>, offered: seq<Info>,
        t: SinkSession, o: Session, lost: bool, m: Move, t': SinkSession) returns (o': Session, lost': bool)
    requires SinkInv(guard, dialed, offered, t, o, lost) && SinkNext(guard, t, m, t')
    ensures SinkInv(guard, dialed, offered, t', o', lost')
  {
    hide Step, Channel, Piped, Puts, Takes, DialerProgress, ListenerProgress, NoCommon, Permits, FaithfulEvent, Encoded;
    hide WriteSide, ReadSide, Lost, Reached, Delivers, Pipe;
    HappensKeepsSides(guard, dialed, offered, t.s, m, t'.s);
    match m {
      case Dial(_) => SinkDials(guard, dialed, offered, t, o, lost, m, t');
      case Listen(_) => SinkListens(guard, dialed, offered, t, o, lost, m, t');
      case Transit(_, _) =>
    }
    o', lost' := ShadowStep(guard, dialed, offered, t.s, o, lost, m, t'.s);
    ReachedInv(guard, dialed, offered, o');
  }

  lemma SinkStart(guard: nat, dialed: seq<Info>, offered: seq<Info>)
    requires 1 <= guard <= 4
    ensures var s := Start(dialed, offered); SinkInv(guard, dialed, offered, SinkSession(s, [], []), s, false)
  {
    hide Header, Length, Frame, Encoded, WholeFrames, Reached, DialerInv, ListenerInv, ReadSide, Lost;
    StartsAlike(guard, dialed, offered);
    NoFrames();
    SettleBuffers(NewDialer(dialed));
    StartHistory(dialed);
  }

  lemma {:induction false} SinkRunHasShadow(guard: nat, dialed: seq<Info>, offered: seq<Info>,
        states: seq<SinkSession>, moves: seq<Move>, n: nat) returns (o: Session, lost: bool)
    requires IsSinkRun(guard, dialed, offered, states, moves) && n < |states|
    ensures SinkInv(guard, dialed, offered, states[n], o, lost)
  {
    hide SinkInv, SinkNext, Start;
    if n == 0 {
      SinkStart(guard, dialed, offered);
      o, lost := Start(dialed, offered), false;
    } else {
      o, lost := SinkRunHasShadow(guard, dialed, offered, states, moves, n - 1);
      assert SinkNext(guard, states[n - 1], moves[n - 1], states[n - 1 + 1]);
      o, lost := SinkStep(guard, dialed, offered, states[n - 1], o, lost, moves[n - 1], states[n]);
    }
  }

  /** No reader parses application bytes: there is a common name, or none have been written. */
  ghost predicate Unmixed(dialed: seq<Info>, offered: seq<Info>, s: Session)
  {
    NoCommon(dialed, offered) ==> s.dialer.hist.appOut == []
  }

  /**
   With RwStreamSink at both ends and a common name, or without application bytes, every state of every
   run is one of `Session.dfy`: no header is parsed short with any guard, so also as written.
   */
  lemma SinkRunIsRun(guard: nat, dialed: seq<Info>, offered: seq<Info>,
        states: seq<SinkSession>, moves: seq<Move>, n: nat)
    requires IsSinkRun(guard, dialed, offered, states, moves) && n < |states|
    requires Unmixed(dialed, offered, states[n].s)
    ensures Reached(guard, dialed, offered, states[n].s)
  {
    hide IsSinkRun, Reached, NoCommon, Channel, Piped, Inv, SidesInv;
    var o, lost := SinkRunHasShadow(guard, dialed, offered, states, moves, n);
  }

  /**
   The code as written (guard 2), and with any other guard, over RwStreamSink: the results hold in every
   state of every run, with no condition on the reads or the lists.
   */
  lemma OverSink(guard: nat, dialed: seq<Info>, offered: seq<Info>,
        states: seq<SinkSession>, moves: seq<Move>, n: nat)
    requires IsSinkRun(guard, dialed, offered, states, moves) && n < |states|
    ensures Sound(dialed, offered, states[n].s)
    ensures NoCommon(dialed, offered) && |states[n].s.dialer.hist.received| == |dialed| ==>
      states[n].s.dialer.phase == Failed(NoAgreement)
  {
    hide IsSinkRun, Reached, Shadow, Sound, Channel, Piped, Inv, DialerProgress, ListenerProgress, NoCommon;
    var o, lost := SinkRunHasShadow(guard, dialed, offered, states, moves, n);
    ShadowIsSound(guard, dialed, offered, states[n].s, o, lost);
    if NoCommon(dialed, offered) {
      NoCommonOutcome(guard, dialed, offered, o);
    }
  }

  /** `t` is a state of some run. */
  ghost predicate SinkReached(guard: nat, dialed: seq<Info>, offered: seq<Info>, t: SinkSession)
  {
    exists states, moves :: IsSinkRun(guard, dialed, offered, states, moves) && t in states
  }

  lemma SinkReachedStart(guard: nat, dialed: seq<Info>, offered: seq<Info>)
    requires 1 <= guard <= 4
    ensures SinkReached(guard, dialed, offered, SinkSession(Start(dialed, offered), [], []))
  {
    hide Start;
    var states, moves: seq<Move> := [SinkSession(Start(dialed, offered), [], [])], [];
    assert IsSinkRun(guard, dialed, offered, states, moves);
    assert states[0] in states;
  }

  lemma SinkReachedNext(guard: nat, dialed: seq<Info>, offered: seq<Info>, t: SinkSession, m: Move, t': SinkSession)
    requires SinkReached(guard, dialed, offered, t) && SinkNext(guard, t, m, t')
    ensures SinkReached(guard, dialed, offered, t')
  {
    hide SinkNext, Start;
    var states, moves :| IsSinkRun(guard, dialed, offered, states, moves) && t in states;
    var n: nat :| n < |states| && states[n] == t;
    var longer, more := states[..n + 1] + [t'], moves[..n] + [m];
    assert forall i | 0 <= i < n :: SinkNext(guard, states[i], moves[i], states[i + 1]);
    assert IsSinkRun(guard, dialed, offered, longer, more);
    assert longer[n + 1] == t';
  }

  lemma SinkReachedShadow(guard: nat, dialed: seq<Info>, offered: seq<Info>, t: SinkSession)
    returns (o: Session, lost: bool)
    requires SinkReached(guard, dialed, offered, t)
    ensures SinkInv(guard, dialed, offered, t, o, lost)
  {
    hide IsSinkRun, SinkInv;
    var states, moves :| IsSinkRun(guard, dialed, offered, states, moves) && t in states;
    var n: nat :| n < |states| && states[n] == t;
    o, lost := SinkRunHasShadow(guard, dialed, offered, states, moves, n);
  }
}
