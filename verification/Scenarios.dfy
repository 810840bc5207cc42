/**
 Runs that exist, over byte pipes and over RwStreamSink: the claims of `Session.dfy` and `SinkSession.dfy`
 are not empty, and their exceptions are needed, each exactly when it says.
 */
module Scenarios {
  import opened Prelude
  import opened Frames
  import opened Messages
  import opened FrameDecoder
  import opened StreamIo
  import opened LengthDelimitedCodec
  import opened Endpoints
  import opened LocalInvariants
  import opened Session
  import opened Shadows
  import opened RwStreamSinks
  import opened SinkSessions

  /** The endpoint after its two reads of a whole frame: header, then payload. */
  function AfterFrame(ep: Endpoint, f: Payload): (ep': Endpoint)
  {
    Settle(React(ep.(hist := ep.hist.(inp := (ep.hist.inp + Header(|f|)) + f)), GotFrame(f)))
  }

  function AfterHeader(ep: Endpoint, f: Payload): (ep': Endpoint)
  {
    ep.(
      codec := ep.codec.(decoder := Decoder(ReadData(|f|, 0), Zeros(|f|))),
      hist := ep.hist.(inp := ep.hist.inp + Header(|f|)))
  }

  lemma TwoReads(guard: nat, ep: Endpoint, f: Payload)
    requires 1 <= guard <= 4 && |f| >= 1 && ep.codec.decoder == START
    requires ep.phase.Receiving? || ep.phase.Awaiting? || (ep.phase.Expecting? && !ep.phase.status.Unflushed?)
    ensures Step(guard, ep, Read(Header(|f|))) == Some(AfterHeader(ep, f))
    ensures FaithfulEvent(guard, ep, Read(Header(|f|))) && FaithfulEvent(guard, AfterHeader(ep, f), Read(f))
    ensures Step(guard, AfterHeader(ep, f), Read(f)) == Some(AfterFrame(ep, f))
  {
    hide Header, Length, Utf8;
    var header := START.state.buf[..0] + Header(|f|) + START.state.buf[4..];
    assert header == Header(|f|) && Length(header) == |f|;
    assert Feed(guard, START, Header(|f|)) == Fed(Decoder(ReadData(|f|, 0), Zeros(|f|)), None);
    var body := Zeros(|f|)[..0] + f + Zeros(|f|)[|f|..];
    assert body == f;
    assert Feed(guard, AfterHeader(ep, f).codec.decoder, f) == Fed(START, Some(f));
  }

  lemma OneWrite(guard: nat, ep: Endpoint)
    requires 1 <= guard <= 4 && ep.codec.decoder.Valid(guard) && ep.codec.writeBuffer != []
    requires ep.phase.Flushing? || ep.phase.Replying? || ep.phase.Expecting?
    ensures Step(guard, ep, Wrote(ep.codec.writeBuffer)) == Some(AfterWrite(ep))
  {
    hide Feed;
    assert ep.codec.writeBuffer[|ep.codec.writeBuffer|..] == [];
  }

  /** The endpoint after one write took its whole buffer. */
  function AfterWrite(ep: Endpoint): (ep': Endpoint)
  {
    ep.(codec := ep.codec.(writeBuffer := []), hist := ep.hist.(out := ep.hist.out + ep.codec.writeBuffer))
  }

  /** The endpoint after a flush. */
  function AfterFlush(ep: Endpoint, phase: Phase): (ep': Endpoint)
  {
    ep.(phase := phase, hist := ep.hist.(flushed := |ep.hist.out|))
  }

  lemma OneFlush(guard: nat, ep: Endpoint)
    requires 1 <= guard <= 4 && ep.codec == Codec(START, [])
    ensures ep.phase.Flushing? ==>
      Step(guard, ep, Flushed) == Some(AfterFlush(ep, Awaiting(ep.phase.proposal, ep.phase.protocols)))
    ensures ep.phase.Expecting? ==>
      Step(guard, ep, Flushed) == Some(AfterFlush(ep, Expecting(ep.phase.proposal, FlushedAll)))
    ensures ep.phase.Replying? ==> Step(guard, ep, Flushed) == Some(AfterFlush(ep,
      if ep.phase.choice.Some? then Completed(ep.phase.choice.value) else Receiving))
  {
    hide Feed;
  }

  // ---------------------------------------------------------------------------------------------
  // What a whole frame does
  // ---------------------------------------------------------------------------------------------

  lemma FrameIs(bytes: seq<Byte>, p: Payload)
    ensures (bytes + Header(|p|)) + p == bytes + Frame(p)
  {
    hide Header;
  }

  lemma QueueOnEmpty(ep: Endpoint, payload: Payload, next: Phase)
    requires ep.codec.writeBuffer == [] && |payload| <= MAX_FRAME_SIZE
    ensures Queue(ep, payload, next) == ep.(
      phase := next,
      codec := ep.codec.(writeBuffer := Frame(payload)),
      hist := ep.hist.(sent := ep.hist.sent + [payload]))
  {
    hide Frame;
    assert [] + Frame(payload) == Frame(payload);
  }

  lemma ListenerAnswers(ep: Endpoint, f: Payload)
    requires ep.phase.Receiving? && IsProtocol(f)
    ensures var r, choice := React(ep, GotFrame(f)), Find(ep.supported, f);
      && r.phase == Answering(if choice.Some? then Propose(f) else NotAvailable, choice)
      && r.codec == ep.codec && r.supported == ep.supported
      && r.hist == ep.hist.(received := ep.hist.received + [f])
  {
    hide Utf8, Find;
    assert Decode(f) == Ok(Propose(f));
  }

  lemma ListenerAfterFrame(ep: Endpoint, f: Payload)
    requires ep.phase.Receiving? && ep.codec == Codec(START, []) && IsProtocol(f) && |f| <= MAX_FRAME_SIZE
    ensures var r, reply := AfterFrame(ep, f), Reply(ep.supported, f);
      && r.phase == Replying(Find(ep.supported, f)) && r.codec == Codec(START, Frame(reply))
      && r.supported == ep.supported
      && r.hist.inp == ep.hist.inp + Frame(f) && r.hist.out == ep.hist.out
      && r.hist.sent == ep.hist.sent + [reply] && r.hist.appIn == ep.hist.appIn
  {
    hide Header, Utf8, Frame, Find, Queue, React;
    FrameIs(ep.hist.inp, f);
    var reply, choice := Reply(ep.supported, f), Find(ep.supported, f);
    var ep1 := ep.(hist := ep.hist.(inp := (ep.hist.inp + Header(|f|)) + f));
    ListenerAnswers(ep1, f);
    assert AfterFrame(ep, f) == Queue(React(ep1, GotFrame(f)), reply, Replying(choice));
    QueueOnEmpty(React(ep1, GotFrame(f)), reply, Replying(choice));
  }

  /** The dialer's next proposal. */
  function Proposed(info: Info, rest: seq<Info>): (phase: Phase)
  {
    if rest != [] then Flushing(info, rest) else Expecting(info, Unflushed)
  }

  lemma DialerAfterRefusal(ep: Endpoint)
    requires ep.phase.Awaiting? && ep.codec == Codec(START, []) && ep.phase.protocols != []
    requires Sendable(ep.phase.protocols[0])
    ensures var r, info := AfterFrame(ep, NA), ep.phase.protocols[0];
      && r.phase == Proposed(info, ep.phase.protocols[1..]) && r.codec == Codec(START, Frame(NameOf(info)))
      && r.hist.inp == ep.hist.inp + Frame(NA) && r.hist.out == ep.hist.out && r.hist.appOut == ep.hist.appOut
      && r.hist.sent == ep.hist.sent + [NameOf(info)]
  {
    hide Header, Length, Feed, Utf8, Frame;
    FrameIs(ep.hist.inp, NA);
    var name := NameOf(ep.phase.protocols[0]);
    assert [] + Frame(name) == Frame(name);
  }

  lemma DialerAfterEcho(ep: Endpoint)
    requires ep.phase.Awaiting? || ep.phase.Expecting?
    requires ep.codec == Codec(START, []) && Sendable(ep.phase.proposal)
    ensures var r := AfterFrame(ep, NameOf(ep.phase.proposal));
      && r.phase == Completed(ep.phase.proposal) && r.codec == ep.codec
      && r.hist.sent == ep.hist.sent && r.hist.out == ep.hist.out
  {
    hide Header, Length, Feed, Utf8, Frame;
  }

  // ---------------------------------------------------------------------------------------------
  // Pieces of runs
  // ---------------------------------------------------------------------------------------------

  /** In a run over RwStreamSink that is also one over byte pipes. */
  ghost predicate Occurs(guard: nat, dialed: seq<Info>, offered: seq<Info>, t: SinkSession)
  {
    SinkReached(guard, dialed, offered, t) && Reached(guard, dialed, offered, t.s)
  }

  lemma OccursNext(guard: nat, dialed: seq<Info>, offered: seq<Info>, t: SinkSession, m: Move, t': SinkSession)
    requires Occurs(guard, dialed, offered, t) && SinkNext(guard, t, m, t') && FaithfulMove(guard, t.s, m)
    ensures Occurs(guard, dialed, offered, t')
  {
    hide Reached, SinkReached, Happens, FaithfulMove;
    ReachedNext(guard, dialed, offered, t.s, m, t'.s);
    SinkReachedNext(guard, dialed, offered, t, m, t');
  }

  /** Items with nothing left in them. */
  predicate UsedUp(items: seq<seq<Byte>>)
  {
    items == [] || items == [[]]
  }

  lemma NothingLater(items: seq<seq<Byte>>)
    ensures items + [] == items
  {
  }

  /** The next item with bytes. */
  lemma ItemRead(used: seq<seq<Byte>>, item: seq<Byte>, later: seq<seq<Byte>>, want: nat)
    requires UsedUp(used) && item != [] && want <= |item|
    ensures SinkRead(used + ([item] + later), want) == Some((item[..want], [item[want..]] + later))
  {
    var items := [item] + later;
    assert items[1..] == later;
    FirstItemRead(items, want);
    if used == [] {
      assert used + items == items;
    } else {
      assert (used + items)[0] == [] && (used + items)[1..] == items;
    }
  }

  /** Both reads of a frame that is an item. */
  lemma FrameRead(used: seq<seq<Byte>>, f: Payload, later: seq<seq<Byte>>)
    requires UsedUp(used) && f != []
    ensures SinkRead(used + ([Frame(f)] + later), 4) == Some((Header(|f|), [f] + later))
    ensures SinkRead([f] + later, |f|) == Some((f, [[]] + later))
  {
    hide SinkRead, Header;
    ItemRead(used, Frame(f), later, 4);
    assert Frame(f)[..4] == Header(|f|) && Frame(f)[4..] == f;
    ItemRead([], f, later, |f|);
    assert [] + ([f] + later) == [f] + later;
    assert f[..|f|] == f && f[|f|..] == [];
  }

  lemma ListenerTakesFrame(guard: nat, dialed: seq<Info>, offered: seq<Info>, t: SinkSession, f: Payload,
        used: seq<seq<Byte>>, later: seq<seq<Byte>>) returns (t': SinkSession)
    requires Occurs(guard, dialed, offered, t) && |f| >= 1
    requires 1 <= guard <= 4 && t.s.dialer.codec.decoder.Valid(guard)
    requires t.s.listener.phase.Receiving? && t.s.listener.codec.decoder == START
    requires t.s.listener.hist.inp + Frame(f) <= t.s.dialer.hist.out
    requires |t.s.listener.hist.inp| + |Frame(f)| <= t.s.up
    requires t.up == used + ([Frame(f)] + later) && UsedUp(used)
    ensures t' == SinkSession(t.s.(listener := AfterFrame(t.s.listener, f)), [[]] + later, t.down)
    ensures Occurs(guard, dialed, offered, t')
  {
    hide Header, Length, Step, AfterFrame, Occurs, FaithfulEvent, SinkRead;
    TwoReads(guard, t.s.listener, f);
    FrameRead(used, f, later);
    Assoc(t.s.listener.hist.inp, Header(|f|), f);
    var mid := SinkSession(t.s.(listener := AfterHeader(t.s.listener, f)), [f] + later, t.down);
    OccursNext(guard, dialed, offered, t, Listen(Read(Header(|f|))), mid);
    t' := SinkSession(t.s.(listener := AfterFrame(t.s.listener, f)), [[]] + later, t.down);
    OccursNext(guard, dialed, offered, mid, Listen(Read(f)), t');
  }

  lemma DialerTakesFrame(guard: nat, dialed: seq<Info>, offered: seq<Info>, t: SinkSession, f: Payload,
        used: seq<seq<Byte>>) returns (t': SinkSession)
    requires Occurs(guard, dialed, offered, t) && |f| >= 1
    requires 1 <= guard <= 4 && t.s.listener.codec.decoder.Valid(guard)
    requires t.s.dialer.phase.Awaiting? || (t.s.dialer.phase.Expecting? && !t.s.dialer.phase.status.Unflushed?)
    requires t.s.dialer.codec.decoder == START
    requires t.s.dialer.hist.inp + Frame(f) <= t.s.listener.hist.out
    requires |t.s.dialer.hist.inp| + |Frame(f)| <= t.s.down
    requires t.down == used + [Frame(f)] && UsedUp(used)
    ensures t' == SinkSession(t.s.(dialer := AfterFrame(t.s.dialer, f)), t.up, [[]])
    ensures Occurs(guard, dialed, offered, t')
  {
    hide Header, Length, Step, AfterFrame, Occurs, FaithfulEvent, SinkRead;
    TwoReads(guard, t.s.dialer, f);
    FrameRead(used, f, []);
    Assoc(t.s.dialer.hist.inp, Header(|f|), f);
    assert [Frame(f)] + [] == [Frame(f)];
    NothingLater([[]]);
    var mid := SinkSession(t.s.(dialer := AfterHeader(t.s.dialer, f)), t.up, [f] + []);
    OccursNext(guard, dialed, offered, t, Dial(Read(Header(|f|))), mid);
    t' := SinkSession(t.s.(dialer := AfterFrame(t.s.dialer, f)), t.up, [[]]);
    OccursNext(guard, dialed, offered, mid, Dial(Read(f)), t');
  }

  /** The first names are refused and forgotten, and the next one is about to be written. */
  predicate Turn(guard: nat, dialed: seq<Info>, offered: seq<Info>, t: SinkSession, j: nat)
  {
    var s := t.s;
    && 1 <= guard <= 4 && j < |dialed| && |NameOf(dialed[j])| <= MAX_FRAME_SIZE
    && s.dialer.phase == Proposed(dialed[j], dialed[j + 1..])
    && s.dialer.codec == Codec(START, Frame(NameOf(dialed[j])))
    && |s.dialer.hist.sent| == j + 1 && s.dialer.hist.appOut == []
    && s.listener.phase == Receiving && s.listener.codec == Codec(START, [])
    && s.listener.supported == Supported(offered) && s.listener.hist.appIn == []
    && s.listener.hist.inp == s.dialer.hist.out && s.up == |s.dialer.hist.out|
    && s.dialer.hist.inp == s.listener.hist.out && s.down == |s.listener.hist.out|
    && UsedUp(t.up) && UsedUp(t.down)
  }

  lemma FirstTurn(guard: nat, dialed: seq<Info>, offered: seq<Info>) returns (t: SinkSession)
    requires 1 <= guard <= 4 && dialed != [] && Sendable(dialed[0])
    ensures Occurs(guard, dialed, offered, t) && Turn(guard, dialed, offered, t, 0)
  {
    hide Header, Length, Feed, Reached, SinkReached, Utf8, Frame;
    ReachedStart(guard, dialed, offered);
    SinkReachedStart(guard, dialed, offered);
    t := SinkSession(Start(dialed, offered), [], []);
    assert [] + Frame(NameOf(dialed[0])) == Frame(NameOf(dialed[0]));
  }

  /** The items of a write, if there is anything to write. */
  function Items(data: seq<Byte>): (items: seq<seq<Byte>>)
  {
    if data == [] then [] else [data]
  }

  /** The proposal is written, then, if it is the last one, application bytes, and all is flushed. */
  lemma Proposes(guard: nat, dialed: seq<Info>, offered: seq<Info>, t: SinkSession, j: nat, data: seq<Byte>)
    returns (t': SinkSession)
    requires Occurs(guard, dialed, offered, t) && Turn(guard, dialed, offered, t, j)
    requires data == [] || j + 1 == |dialed|
    ensures Occurs(guard, dialed, offered, t')
    ensures t'.s.listener == t.s.listener && t'.s.down == t.s.down && t'.down == t.down
    ensures t'.up == t.up + ([Frame(NameOf(dialed[j]))] + Items(data))
    ensures t'.s.dialer.phase ==
      if dialed[j + 1..] != [] then Awaiting(dialed[j], dialed[j + 1..]) else Expecting(dialed[j], FlushedAll)
    ensures var d, d' := t.s.dialer, t'.s.dialer;
      && d'.codec == Codec(START, []) && d'.hist.inp == d.hist.inp
      && d'.hist.sent == d.hist.sent && d'.hist.appOut == data
      && d'.hist.out == (d.hist.out + Frame(NameOf(dialed[j]))) + data && t'.s.up == |d'.hist.out|
  {
    hide Header, Length, Feed, Occurs, Frame, Step, Faithful, NameOf, Supported, UsedUp;
    var frame := t.s.dialer.codec.writeBuffer;
    OneWrite(guard, t.s.dialer);
    t' := SinkSession(t.s.(dialer := AfterWrite(t.s.dialer)), t.up + [frame], t.down);
    OccursNext(guard, dialed, offered, t, Dial(Wrote(frame)), t');
    assert t'.s.dialer.hist.out + [] == t'.s.dialer.hist.out && [frame] + [] == [frame];
    if data != [] {
      t' := Optimistically(guard, dialed, offered, t', data);
      Assoc(t.up, [frame], [data]);
    }
    OneFlush(guard, t'.s.dialer);
    var flushed := t'.s.(up := |t'.s.dialer.hist.out|, dialer := Step(guard, t'.s.dialer, Flushed).value);
    OccursNext(guard, dialed, offered, t', Dial(Flushed), t'.(s := flushed));
    t' := t'.(s := flushed);
  }

  /** Bytes the application writes behind the last proposal. */
  lemma Optimistically(guard: nat, dialed: seq<Info>, offered: seq<Info>, t: SinkSession, data: seq<Byte>)
    returns (t': SinkSession)
    requires Occurs(guard, dialed, offered, t) && 1 <= guard <= 4 && t.s.listener.codec.decoder.Valid(guard)
    requires t.s.dialer.phase.Expecting? && t.s.dialer.phase.status.Unflushed? && t.s.dialer.codec == Codec(START, [])
    requires t.s.dialer.hist.appOut == []
    ensures var h := t.s.dialer.hist;
      t'.s == t.s.(dialer := t.s.dialer.(hist := h.(out := h.out + data, appOut := data)))
    ensures t'.up == t.up + [data] && t'.down == t.down
    ensures Occurs(guard, dialed, offered, t')
  {
    hide Header, Length, Feed, Occurs, Frame, NameOf;
    var h := t.s.dialer.hist;
    var d := t.s.dialer.(hist := h.(out := h.out + data, appOut := data));
    t' := SinkSession(t.s.(dialer := d), t.up + [data], t.down);
    assert h.appOut + data == data;
    OccursNext(guard, dialed, offered, t, Dial(Wrote(data)), t');
  }

  /** The listener reads a frame that a proposal could be, and its reply is written and flushed. */
  lemma Replies(guard: nat, dialed: seq<Info>, offered: seq<Info>, t: SinkSession, f: Payload,
        used: seq<seq<Byte>>, later: seq<seq<Byte>>) returns (t': SinkSession)
    requires Occurs(guard, dialed, offered, t) && 1 <= guard <= 4 && t.s.dialer.codec.decoder.Valid(guard)
    requires t.s.listener.phase.Receiving? && t.s.listener.codec == Codec(START, [])
    requires IsProtocol(f) && |f| <= MAX_FRAME_SIZE
    requires t.s.listener.hist.inp + Frame(f) <= t.s.dialer.hist.out && t.s.up == |t.s.dialer.hist.out|
    requires t.up == used + ([Frame(f)] + later) && UsedUp(used)
    ensures Occurs(guard, dialed, offered, t')
    ensures t'.s.dialer == t.s.dialer && t'.s.up == t.s.up
    ensures t'.up == [[]] + later && t'.down == t.down + [Frame(Reply(t.s.listener.supported, f))]
    ensures var l, l' := t.s.listener, t'.s.listener;
      var reply, choice := Reply(l.supported, f), Find(l.supported, f);
      && l'.phase == (if choice.Some? then Completed(choice.value) else Receiving)
      && l'.codec == Codec(START, []) && l'.supported == l.supported
      && l'.hist.inp == l.hist.inp + Frame(f) && l'.hist.appIn == l.hist.appIn
      && l'.hist.out == l.hist.out + Frame(reply) && t'.s.down == |l'.hist.out|
      && l'.hist.sent == l.hist.sent + [reply]
  {
    hide Header, Length, Feed, Occurs, Frame, Step, Faithful, AfterFrame, Find, Utf8, UsedUp;
    var answering := ListenerTakesFrame(guard, dialed, offered, t, f, used, later);
    ListenerAfterFrame(t.s.listener, f);
    var frame := answering.s.listener.codec.writeBuffer;
    OneWrite(guard, answering.s.listener);
    var written := answering.(
      s := answering.s.(listener := AfterWrite(answering.s.listener)),
      down := t.down + [frame]);
    OccursNext(guard, dialed, offered, answering, Listen(Wrote(frame)), written);
    OneFlush(guard, written.s.listener);
    var l := written.s.listener;
    t' := written.(s := written.s.(down := |l.hist.out|, listener := Step(guard, l, Flushed).value));
    OccursNext(guard, dialed, offered, written, Listen(Flushed), t');
  }

  /** A refused proposal: the next one takes its turn. */
  lemma NextTurn(guard: nat, dialed: seq<Info>, offered: seq<Info>, t: SinkSession, j: nat) returns (t': SinkSession)
    requires Occurs(guard, dialed, offered, t) && Turn(guard, dialed, offered, t, j)
    requires Sendable(dialed[j]) && !Offers(offered, NameOf(dialed[j]))
    requires j + 1 < |dialed| && Sendable(dialed[j + 1])
    ensures Occurs(guard, dialed, offered, t') && Turn(guard, dialed, offered, t', j + 1)
  {
    hide Header, Length, Feed, Occurs, Frame, AfterFrame, Find, Utf8, NameOf, Supported;
    var name := NameOf(dialed[j]);
    FindMeansOffered(offered, name);
    var t1 := Proposes(guard, dialed, offered, t, j, []);
    assert t1.s.dialer.hist.out == t.s.dialer.hist.out + Frame(name);
    var t2 := Replies(guard, dialed, offered, t1, name, t.up, []);
    NothingLater([[]]);
    t' := DialerTakesFrame(guard, dialed, offered, t2, NA, t.down);
    assert dialed[j + 1..][0] == dialed[j + 1] && dialed[j + 1..][1..] == dialed[j + 2..];
    DialerAfterRefusal(t2.s.dialer);
  }

  /** Any sendable name takes its turn if those before it are sendable and refused. */
  lemma {:induction false} TakesTurn(guard: nat, dialed: seq<Info>, offered: seq<Info>, j: nat) returns (t: SinkSession)
    requires 1 <= guard <= 4 && j < |dialed| && forall i | 0 <= i <= j :: Sendable(dialed[i])
    requires forall i | 0 <= i < j :: !Offers(offered, NameOf(dialed[i]))
    ensures Occurs(guard, dialed, offered, t) && Turn(guard, dialed, offered, t, j)
  {
    hide Occurs, Turn, Offers, Sendable;
    if j == 0 {
      t := FirstTurn(guard, dialed, offered);
    } else {
      t := TakesTurn(guard, dialed, offered, j - 1);
      t := NextTurn(guard, dialed, offered, t, j - 1);
    }
  }

  // ---------------------------------------------------------------------------------------------
  // Completion
  // ---------------------------------------------------------------------------------------------

  /** An offered name in its turn: both sides complete, and bytes written behind the last proposal arrive. */
  lemma Accepts(guard: nat, dialed: seq<Info>, offered: seq<Info>, t: SinkSession, j: nat, data: seq<Byte>)
    returns (t': SinkSession)
    requires Occurs(guard, dialed, offered, t) && Turn(guard, dialed, offered, t, j)
    requires Sendable(dialed[j]) && Offers(offered, NameOf(dialed[j]))
    requires data == [] || j + 1 == |dialed|
    ensures Occurs(guard, dialed, offered, t')
    ensures t'.s.dialer.phase == Completed(dialed[j]) && |t'.s.dialer.hist.sent| == j + 1
    ensures t'.s.listener.phase.Completed? && t'.s.listener.hist.appIn == data
  {
    hide Header, Length, Feed, Occurs, Frame, AfterFrame, Find, Utf8, NameOf, Supported;
    var name := NameOf(dialed[j]);
    FindMeansOffered(offered, name);
    var t1 := Proposes(guard, dialed, offered, t, j, data);
    var t2 := Replies(guard, dialed, offered, t1, name, t.up, Items(data));
    t' := DialerTakesFrame(guard, dialed, offered, t2, name, t.down);
    DialerAfterEcho(t2.s.dialer);
    if data != [] {
      t' := Delivered(guard, dialed, offered, t', data);
    }
  }

  lemma Delivered(guard: nat, dialed: seq<Info>, offered: seq<Info>, t: SinkSession, data: seq<Byte>)
    returns (t': SinkSession)
    requires Occurs(guard, dialed, offered, t) && 1 <= guard <= 4 && data != []
    requires t.s.dialer.codec == Codec(START, []) == t.s.listener.codec && t.s.listener.phase.Completed?
    requires t.s.listener.hist.inp + data == t.s.dialer.hist.out && t.s.up == |t.s.dialer.hist.out|
    requires t.s.listener.hist.appIn == [] && t.up == [[]] + [data]
    ensures t'.s == t.s.(listener := Pass(t.s.listener, Read(data))) && t'.s.listener.hist.appIn == data
    ensures Occurs(guard, dialed, offered, t')
  {
    hide Header, Length, Feed, Occurs, SinkRead;
    ItemRead([[]], data, [], |data|);
    assert [data] + [] == [data] && data[..|data|] == data;
    t' := SinkSession(t.s.(listener := Pass(t.s.listener, Read(data))), [data[|data|..]] + [], t.down);
    OccursNext(guard, dialed, offered, t, Listen(Read(data)), t');
    assert [] + data == data;
  }

  /** Both sides are completed under the name at `i`. */
  predicate CompletedAt(dialed: seq<Info>, i: nat, s: Session)
  {
    && s.dialer.phase.Completed? && s.listener.phase.Completed?
    && |s.dialer.hist.sent| == i + 1 && i < |dialed| && s.dialer.phase.info == dialed[i]
  }

  /**
   Completeness of the negotiation: a run in which both sides complete with the name at `i` exists
   exactly if it is the first common one, and the names up to it can be sent. The same over RwStreamSink.
   */
  lemma CompletesIff(guard: nat, dialed: seq<Info>, offered: seq<Info>, i: nat)
    requires 1 <= guard <= 4
    ensures (exists s :: Reached(guard, dialed, offered, s) && CompletedAt(dialed, i, s))
      <==> FirstCommon(dialed, offered, i) && forall j | 0 <= j <= i :: Sendable(dialed[j])
    ensures (exists t :: SinkReached(guard, dialed, offered, t) && CompletedAt(dialed, i, t.s))
      <==> FirstCommon(dialed, offered, i) && forall j | 0 <= j <= i :: Sendable(dialed[j])
  {
    hide Reached, SinkReached, Turn, NameOf, Offers, Sendable, FirstCommon;
    forall s | Reached(guard, dialed, offered, s) && CompletedAt(dialed, i, s)
      ensures FirstCommon(dialed, offered, i) && forall j | 0 <= j <= i :: Sendable(dialed[j])
    {
      CompletedFirst(guard, dialed, offered, s, i);
    }
    forall t | SinkReached(guard, dialed, offered, t) && CompletedAt(dialed, i, t.s)
      ensures FirstCommon(dialed, offered, i) && forall j | 0 <= j <= i :: Sendable(dialed[j])
    {
      SinkCompletedFirst(guard, dialed, offered, t, i);
    }
    if && 0 <= i < |dialed| && FirstCommon(dialed, offered, i)
       && forall j | 0 <= j <= i :: Sendable(dialed[j]) {
      CompletesAt(guard, dialed, offered, i);
    }
    assert FirstCommon(dialed, offered, i) ==> i < |dialed| by { FirstIsListed(dialed, offered, i); }
  }

  lemma FirstIsListed(dialed: seq<Info>, offered: seq<Info>, i: int)
    ensures FirstCommon(dialed, offered, i) ==> 0 <= i < |dialed|
  {
  }

  lemma CompletedFirst(guard: nat, dialed: seq<Info>, offered: seq<Info>, s: Session, i: nat)
    requires Reached(guard, dialed, offered, s) && s.dialer.phase.Completed? && |s.dialer.hist.sent| == i + 1
    ensures FirstCommon(dialed, offered, i) && forall j | 0 <= j <= i :: Sendable(dialed[j])
  {
    hide Reached, NameOf, Offers, Sendable, WriteSide, ReadSide, Frame;
    Agreement(guard, dialed, offered, s);
    ReachedInv(guard, dialed, offered, s);
  }

  lemma SinkCompletedFirst(guard: nat, dialed: seq<Info>, offered: seq<Info>, t: SinkSession, i: nat)
    requires SinkReached(guard, dialed, offered, t) && t.s.dialer.phase.Completed? && |t.s.dialer.hist.sent| == i + 1
    ensures FirstCommon(dialed, offered, i) && forall j | 0 <= j <= i :: Sendable(dialed[j])
  {
    hide SinkReached, Reached, FirstCommon, Sendable, Channel, Piped, Inv, SidesInv, Shadow;
    var o, lost := SinkReachedShadow(guard, dialed, offered, t);
    CompletedFirst(guard, dialed, offered, o, i);
  }

  lemma CompletesAt(guard: nat, dialed: seq<Info>, offered: seq<Info>, i: nat)
    requires 1 <= guard <= 4 && FirstCommon(dialed, offered, i) && forall j | 0 <= j <= i :: Sendable(dialed[j])
    ensures exists s :: Reached(guard, dialed, offered, s) && CompletedAt(dialed, i, s)
    ensures exists t :: SinkReached(guard, dialed, offered, t) && CompletedAt(dialed, i, t.s)
  {
    hide Reached, SinkReached, Turn, NameOf, Offers, Sendable;
    var t := TakesTurn(guard, dialed, offered, i);
    t := Accepts(guard, dialed, offered, t, i, []);
    assert CompletedAt(dialed, i, t.s);
  }

  /**
   Optimistic data arrives: if the last name is the first common one, then for every data there is a run
   in which the listener's application reads what the dialer's wrote before the negotiation was confirmed.
   */
  lemma ZeroRttCompletes(guard: nat, dialed: seq<Info>, offered: seq<Info>, data: seq<Byte>)
    requires 1 <= guard <= 4 && FirstCommon(dialed, offered, |dialed| - 1)
    requires forall info | info in dialed :: Sendable(info)
    ensures exists t ::
      && Occurs(guard, dialed, offered, t)
      && t.s.dialer.phase == Completed(dialed[|dialed| - 1]) && t.s.listener.phase.Completed?
      && t.s.listener.hist.appIn == data
  {
    hide Occurs, Turn, NameOf, Offers, Sendable;
    var t := TakesTurn(guard, dialed, offered, |dialed| - 1);
    t := Accepts(guard, dialed, offered, t, |dialed| - 1, data);
  }

  // ---------------------------------------------------------------------------------------------
  // The deadlock
  // ---------------------------------------------------------------------------------------------

  /** The last name takes its turn. */
  ghost predicate LastTurnComes(dialed: seq<Info>, offered: seq<Info>)
  {
    && dialed != [] && (forall info | info in dialed :: Sendable(info))
    && forall i | 0 <= i < |dialed| - 1 :: !Offers(offered, NameOf(dialed[i]))
  }

  /**
   When a session can get stuck: exactly if the last name can take its turn. A write that takes no byte
   of it is tolerated, the dialer waits for the answer, and the listener for the proposal. Over
   RwStreamSink the error of the item sink can be a WriteZero.
   */
  lemma StuckIff(guard: nat, dialed: seq<Info>, offered: seq<Info>)
    requires 1 <= guard <= 4
    ensures (exists s :: Reached(guard, dialed, offered, s) && Stuck(s)) <==> LastTurnComes(dialed, offered)
    ensures (exists t :: SinkReached(guard, dialed, offered, t) && Stuck(t.s)) <==> LastTurnComes(dialed, offered)
  {
    hide Reached, SinkReached, Stuck, LastTurnComes;
    forall s | Reached(guard, dialed, offered, s) && Stuck(s)
      ensures LastTurnComes(dialed, offered)
    {
      StuckAfterWriteZero(guard, dialed, offered, s);
      ExpectsLast(guard, dialed, offered, s);
    }
    forall t | SinkReached(guard, dialed, offered, t) && Stuck(t.s)
      ensures LastTurnComes(dialed, offered)
    {
      SinkStuck(guard, dialed, offered, t);
    }
    if LastTurnComes(dialed, offered) {
      GetsStuck(guard, dialed, offered, Wrote([]));
      GetsStuck(guard, dialed, offered, WriteFailed(WriteZero));
    }
  }

  /** A dialer that expects its last name confirmed has had the others refused. */
  lemma ExpectsLast(guard: nat, dialed: seq<Info>, offered: seq<Info>, s: Session)
    requires Reached(guard, dialed, offered, s) && s.dialer.phase.Expecting?
    ensures LastTurnComes(dialed, offered)
  {
    hide Reached, Header, Length, Frame, Encoded, WriteSide, ReadSide, ListenerProgress, NameOf, Offers, Sendable;
    ReachedInv(guard, dialed, offered, s);
    NoOverrun(guard, dialed, offered, s);
    forall i | 0 <= i < |dialed| - 1
      ensures !Offers(offered, NameOf(dialed[i]))
    {
      Answered(guard, dialed, offered, s, i);
    }
  }

  lemma SinkStuck(guard: nat, dialed: seq<Info>, offered: seq<Info>, t: SinkSession)
    requires SinkReached(guard, dialed, offered, t) && Stuck(t.s)
    ensures LastTurnComes(dialed, offered)
  {
    hide SinkReached, Reached, Channel, Piped, Inv, DialerProgress, ListenerProgress, Shadow, LastTurnComes, Stuck;
    var o, lost := SinkReachedShadow(guard, dialed, offered, t);
    ShadowIsSound(guard, dialed, offered, t.s, o, lost);
    ExpectsLast(guard, dialed, offered, o);
  }

  lemma GetsStuck(guard: nat, dialed: seq<Info>, offered: seq<Info>, e: Event)
    requires 1 <= guard <= 4 && LastTurnComes(dialed, offered) && e in {Wrote([]), WriteFailed(WriteZero)}
    ensures exists s :: Reached(guard, dialed, offered, s) && Stuck(s)
    ensures e.WriteFailed? ==> exists t :: SinkReached(guard, dialed, offered, t) && Stuck(t.s)
  {
    hide Reached, SinkReached, NameOf, Offers, Sendable, Frame, Supported;
    var t := TakesTurn(guard, dialed, offered, |dialed| - 1);
    var s := t.s.(dialer := Step(guard, t.s.dialer, e).value);
    ZeroTolerated(guard, t.s.dialer, e);
    ReachedNext(guard, dialed, offered, t.s, Dial(e), s);
    assert Stuck(s);
    if e.WriteFailed? {
      SinkReachedNext(guard, dialed, offered, t, Dial(e), t.(s := s));
      assert Stuck(t.(s := s).s);
    }
  }

  lemma ZeroTolerated(guard: nat, ep: Endpoint, e: Event)
    requires 1 <= guard <= 4 && ep.codec.decoder.Valid(guard) && ep.phase.Expecting? && ep.codec.writeBuffer != []
    requires e in {Wrote([]), WriteFailed(WriteZero)}
    ensures Step(guard, ep, e).Some?
    ensures var r := Step(guard, ep, e).value;
      && r.phase == ep.phase.(status := Tolerated) && r.codec == ep.codec
      && r.hist == ep.hist
  {
    hide Feed;
    assert ep.hist.out + [] == ep.hist.out;
  }

  // ---------------------------------------------------------------------------------------------
  // The wrong acceptance
  // ---------------------------------------------------------------------------------------------

  /** The listener has accepted a name that is not the first common one. */
  ghost predicate WronglyAccepted(dialed: seq<Info>, offered: seq<Info>, s: Session)
  {
    var sent := s.listener.hist.sent;
    && Accepted(s.listener)
    && !(FirstCommon(dialed, offered, |sent| - 1) && sent[|sent| - 1] == NameOf(dialed[|sent| - 1]))
  }

  /** There is a name that a listener can echo. */
  ghost predicate OffersAny(offered: seq<Info>)
  {
    exists name: Payload :: Offers(offered, name) && |name| <= MAX_FRAME_SIZE
  }

  /** The dialer's whole list can be sent and refused, and something else accepted. */
  ghost predicate CanMisread(dialed: seq<Info>, offered: seq<Info>)
  {
    && NoCommon(dialed, offered) && dialed != [] && (forall info | info in dialed :: Sendable(info))
    && OffersAny(offered)
  }

  /**
   Why agreement does not go both ways, and exactly when. Some run ends with a wrong acceptance if and
   only if the lists have no common name, the dialer's is not empty and all of it can be sent, and the
   listener offers a name of a size that can be sent: the dialer's application then writes that name as
   a frame behind the last proposal. The same over RwStreamSink.
   */
  lemma WronglyAcceptedIff(guard: nat, dialed: seq<Info>, offered: seq<Info>)
    requires 1 <= guard <= 4
    ensures (exists s :: Reached(guard, dialed, offered, s) && WronglyAccepted(dialed, offered, s))
      <==> CanMisread(dialed, offered)
    ensures (exists t :: SinkReached(guard, dialed, offered, t) && WronglyAccepted(dialed, offered, t.s))
      <==> CanMisread(dialed, offered)
  {
    hide Reached, SinkReached, WronglyAccepted, CanMisread;
    forall s | Reached(guard, dialed, offered, s) && WronglyAccepted(dialed, offered, s)
      ensures CanMisread(dialed, offered)
    {
      OnlyIfNoCommon(guard, dialed, offered, s);
    }
    forall t | SinkReached(guard, dialed, offered, t) && WronglyAccepted(dialed, offered, t.s)
      ensures CanMisread(dialed, offered)
    {
      SinkOnlyIfNoCommon(guard, dialed, offered, t);
    }
    if CanMisread(dialed, offered) {
      var t := Misread(guard, dialed, offered);
    }
  }

  lemma AcceptedIsOffered(offered: seq<Info>, l: Endpoint)
    requires ListenerProgress(offered, l) && Accepted(l)
    ensures OffersAny(offered)
  {
    hide NameOf, Find, Frame, Offers;
    FindMeansOffered(offered, l.hist.sent[|l.hist.sent| - 1]);
    assert Offers(offered, l.hist.sent[|l.hist.sent| - 1]);
  }

  lemma AllSendable(dialed: seq<Info>, d: Endpoint)
    requires DialerProgress(dialed, d) && d.hist.appOut != [] && |d.hist.sent| == |dialed|
    ensures dialed != [] && forall info | info in dialed :: Sendable(info)
  {
    hide NameOf, Sendable, Frame;
  }

  lemma OnlyIfNoCommon(guard: nat, dialed: seq<Info>, offered: seq<Info>, s: Session)
    requires Reached(guard, dialed, offered, s) && WronglyAccepted(dialed, offered, s)
    ensures CanMisread(dialed, offered)
  {
    hide Reached, NameOf, Sendable, FirstCommon, NoCommon, WriteSide, ReadSide, OffersAny, Find;
    hide DialerProgress, ListenerProgress;
    ReachedInv(guard, dialed, offered, s);
    ListenerOutcome(guard, dialed, offered, s);
    AcceptedIsOffered(offered, s.listener);
    AllSendable(dialed, s.dialer);
  }

  lemma SinkOnlyIfNoCommon(guard: nat, dialed: seq<Info>, offered: seq<Info>, t: SinkSession)
    requires SinkReached(guard, dialed, offered, t) && WronglyAccepted(dialed, offered, t.s)
    ensures CanMisread(dialed, offered)
  {
    hide Reached, SinkReached, NameOf, Sendable, NoCommon, FirstCommon, WriteSide, ReadSide, OffersAny;
    hide DialerProgress, ListenerProgress, Channel, Piped;
    var o, lost := SinkReachedShadow(guard, dialed, offered, t);
    if lost {
      NoCommonOutcome(guard, dialed, offered, o);
      ProposedAll(dialed, o.dialer);
      AllSendable(dialed, o.dialer);
      AcceptedIsOffered(offered, t.s.listener);
    } else {
      OnlyIfNoCommon(guard, dialed, offered, t.s);
    }
  }

  lemma Misread(guard: nat, dialed: seq<Info>, offered: seq<Info>) returns (t: SinkSession)
    requires 1 <= guard <= 4 && CanMisread(dialed, offered)
    ensures Occurs(guard, dialed, offered, t) && WronglyAccepted(dialed, offered, t.s)
  {
    hide Header, Length, Occurs, Frame, Find, Utf8, NameOf, Supported;
    var name: Payload :| Offers(offered, name) && |name| <= MAX_FRAME_SIZE;
    var last := |dialed| - 1;
    t := TakesTurn(guard, dialed, offered, last);
    FindMeansOffered(offered, NameOf(dialed[last]));
    FindMeansOffered(offered, name);
    var used := t.up;
    t := Proposes(guard, dialed, offered, t, last, Frame(name));
    t := Replies(guard, dialed, offered, t, NameOf(dialed[last]), used, [Frame(name)]);
    assert [Frame(name)] + [] == [Frame(name)];
    t := Replies(guard, dialed, offered, t, name, [[]], []);
  }

  // ---------------------------------------------------------------------------------------------
  // The panic
  // ---------------------------------------------------------------------------------------------

  /** These I/O outcomes take a dialer into the failing assertion of `into_inner`. */
  predicate RunPanics(guard: nat, dialed: seq<Info>, es: seq<Event>)
    requires 1 <= guard <= 4
  {
    var r := Run(guard, Settle(NewDialer(dialed)), es);
    r.Some? && r.value.phase.Panicked?
  }

  lemma OneMore(guard: nat, start: Endpoint, es: seq<Event>, mid: Endpoint, e: Event)
    requires 1 <= guard <= 4 && start.codec.decoder.Valid(guard) && Run(guard, start, es) == Some(mid)
    ensures Run(guard, start, es + [e]) == Step(guard, mid, e)
  {
    assert (es + [e])[..|es|] == es;
  }

  lemma EchoPanics(ep: Endpoint)
    requires ep.phase.Expecting? && ep.codec.writeBuffer != [] && Sendable(ep.phase.proposal)
    ensures AfterFrame(ep, NameOf(ep.phase.proposal)).phase.Panicked?
  {
    hide Header, Length, Utf8, Frame, NameOf;
  }

  /** A peer that refuses every name until this one, which is then about to be written. */
  lemma {:induction false} PeerRefuses(guard: nat, dialed: seq<Info>, j: nat) returns (es: seq<Event>, ep: Endpoint)
    requires 1 <= guard <= 4 && j < |dialed| && forall i | 0 <= i <= j :: Sendable(dialed[i])
    ensures Sendable(dialed[j]) && Run(guard, Settle(NewDialer(dialed)), es) == Some(ep)
    ensures ep.phase == Proposed(dialed[j], dialed[j + 1..]) && ep.codec == Codec(START, Frame(NameOf(dialed[j])))
  {
    hide Header, Length, Frame, Step, AfterFrame, Run, Utf8, NameOf;
    var start := Settle(NewDialer(dialed));
    if j == 0 {
      assert [] + Frame(NameOf(dialed[0])) == Frame(NameOf(dialed[0]));
      RunNothing(guard, start);
      es, ep := [], start;
    } else {
      es, ep := PeerRefuses(guard, dialed, j - 1);
      assert dialed[j..][0] == dialed[j] && dialed[j..][1..] == dialed[j + 1..];
      OneWrite(guard, ep);
      OneMore(guard, start, es, ep, Wrote(ep.codec.writeBuffer));
      es, ep := es + [Wrote(ep.codec.writeBuffer)], AfterWrite(ep);
      OneFlush(guard, ep);
      OneMore(guard, start, es, ep, Flushed);
      es, ep := es + [Flushed], Step(guard, ep, Flushed).value;
      DialerAfterRefusal(ep);
      es, ep := PeerSends(guard, start, es, ep, NA);
    }
  }

  lemma PeerSends(guard: nat, start: Endpoint, es: seq<Event>, ep: Endpoint, f: Payload)
    returns (es': seq<Event>, ep': Endpoint)
    requires 1 <= guard <= 4 && start.codec.decoder.Valid(guard) && Run(guard, start, es) == Some(ep)
    requires |f| >= 1 && ep.codec.decoder == START
    requires ep.phase.Awaiting? || (ep.phase.Expecting? && !ep.phase.status.Unflushed?)
    ensures Run(guard, start, es') == Some(ep') && ep' == AfterFrame(ep, f)
  {
    hide Header, Length, Step, Run, AfterFrame, FaithfulEvent;
    TwoReads(guard, ep, f);
    OneMore(guard, start, es, ep, Read(Header(|f|)));
    OneMore(guard, start, es + [Read(Header(|f|))], AfterHeader(ep, f), Read(f));
    es', ep' := es + [Read(Header(|f|))] + [Read(f)], AfterFrame(ep, f);
  }

  lemma PeerEchoesEarly(guard: nat, dialed: seq<Info>) returns (es: seq<Event>)
    requires 1 <= guard <= 4 && dialed != [] && forall info | info in dialed :: Sendable(info)
    ensures RunPanics(guard, dialed, es)
  {
    hide Header, Length, Frame, Step, AfterFrame, Run, NameOf;
    var ep;
    es, ep := PeerRefuses(guard, dialed, |dialed| - 1);
    ZeroTolerated(guard, ep, Wrote([]));
    OneMore(guard, Settle(NewDialer(dialed)), es, ep, Wrote([]));
    es, ep := es + [Wrote([])], Step(guard, ep, Wrote([])).value;
    EchoPanics(ep);
    es, ep := PeerSends(guard, Settle(NewDialer(dialed)), es, ep, NameOf(ep.phase.proposal));
  }

  lemma PanicsOnLast(dialed: seq<Info>, ep: Endpoint)
    requires DialerProgress(dialed, ep) && ep.phase.Panicked?
    ensures dialed != [] && forall info | info in dialed :: Sendable(info)
  {
    hide Frame, Sendable, NameOf;
  }

  /** Some peer makes a dialer panic exactly if its list is not empty and all of it can be sent. */
  lemma PanicsIff(guard: nat, dialed: seq<Info>)
    requires 1 <= guard <= 4
    ensures (exists es :: RunPanics(guard, dialed, es))
      <==> dialed != [] && forall info | info in dialed :: Sendable(info)
  {
    hide Sendable, DialerProgress, WriteSide, Run;
    forall es | RunPanics(guard, dialed, es)
      ensures dialed != [] && forall info | info in dialed :: Sendable(info)
    {
      DialerRun(guard, dialed, es);
      PanicsOnLast(dialed, Run(guard, Settle(NewDialer(dialed)), es).value);
    }
    if dialed != [] && forall info | info in dialed :: Sendable(info) {
      var es := PeerEchoesEarly(guard, dialed);
    }
  }
}
