/** `UpgradeApply`: negotiates over an upgrade's own infos and starts the leaf they lead to. */
module Applying {
  import opened Prelude
  import opened Frames
  import opened Messages
  import opened FrameDecoder
  import opened StreamIo
  import opened LengthDelimitedCodec
  import opened Endpoints
  import opened LocalInvariants
  import opened Upgrades
  import opened Session
  import Dialer
  import Listener
  import NegotiatedStream

  datatype LeafPoll = LeafPending | LeafDone | LeafFailed

  /** What a leaf's `upgrade_inbound`/`upgrade_outbound` returns; it may end in any way, at any time. */
  class LeafFuture {
    const leaf: Upgrade
    const name: Str                             // the info the leaf itself is called with
    const stream: NegotiatedStream.Negotiated
    ghost var outcomes: seq<LeafPoll>

    constructor (leaf: Upgrade, stream: NegotiatedStream.Negotiated, name: Str)
      ensures this.leaf == leaf && this.stream == stream && this.name == name && outcomes == []
    {
      this.leaf := leaf;
      this.stream := stream;
      this.name := name;
      outcomes := [];
    }

    method Poll() returns (r: LeafPoll)
      modifies this
      ensures outcomes == old(outcomes) + [r]
    {
      r := *;
      outcomes := outcomes + [r];
    }
  }

  datatype ApplyState =
    | ListenerInit(listener: Listener.ListenerSelect)
    | DialerInit(dialer: Dialer.DialerSelect)
    | Upgrading(future: LeafFuture, name: Str)
    | Undefined

  datatype ApplyPoll = Pending | Done | SelectFailed(error: NegotiationError) | UpgradeFailed

  /** The leaf an upgrade starts for a selected info: one of its own, which advertises that name. */
  predicate Started(u: Upgrade, info: Info, leaf: Upgrade)
  {
    info in ProtocolInfo(u) && Route(u, info) == Some(leaf) && leaf in Leaves(u) && Advertises(leaf, NameOf(info))
  }

  /** The info under which a select future has handed its stream over. */
  function Chosen(phase: Phase): (info: Option<Info>)
  {
    match phase
    case Expecting(proposal, _) => Some(proposal)
    case Completed(info) => Some(info)
    case _ => None
  }

  /** `future` is the upgrade of the stream negotiated by an endpoint that is in `phase`. */
  predicate Continues(u: Upgrade, phase: Phase, codec: LengthDelimited, future: LeafFuture)
  {
    && Chosen(phase).Some?
    && Started(u, Chosen(phase).value, future.leaf) && future.name == NameOf(Chosen(phase).value)
    && future.stream.codec == codec
  }

  /** The stream has been called since its log was that long, and its last call told to wait. */
  ghost predicate PendingIo(io: Io, before: nat)
    reads io
  {
    |io.log| > before && io.log[|io.log| - 1].Waits()
  }

  class UpgradeApply {
    const upgrade: Upgrade
    var inner: ApplyState

    ghost predicate Valid()
      reads this
      reads match inner case DialerInit(d) => {d, d.codec} case ListenerInit(l) => {l, l.codec} case _ => {}
    {
      match inner
      case DialerInit(d) =>
        d.Valid() && d.state != Dialer.Done && DialerInv(d.codec.guard, ProtocolInfo(upgrade), Settle(d.endpoint))
      case ListenerInit(l) =>
        l.Valid() && l.state != Listener.Done && ListenerInv(l.codec.guard, ProtocolInfo(upgrade), Settle(l.endpoint))
      case Upgrading(future, name) =>
        name == future.name && exists info :: Started(upgrade, info, future.leaf) && name == NameOf(info)
      case Undefined => true
    }

    constructor Outbound(io: Io, guard: nat, upgrade: Upgrade)
      requires 1 <= guard <= 4
      ensures Valid() && inner.DialerInit? && this.upgrade == upgrade
      ensures fresh(inner.dialer) && fresh(inner.dialer.codec) && inner.dialer.codec.io == io
      ensures inner.dialer.endpoint == NewDialer(ProtocolInfo(upgrade))
    {
      this.upgrade := upgrade;
      var dialer := new Dialer.DialerSelect(io, guard, ProtocolInfo(upgrade));
      inner := DialerInit(dialer);
      LocalInvariants.DialerInit(guard, ProtocolInfo(upgrade));
    }

    constructor Inbound(io: Io, guard: nat, upgrade: Upgrade)
      requires 1 <= guard <= 4
      ensures Valid() && inner.ListenerInit? && this.upgrade == upgrade
      ensures fresh(inner.listener) && fresh(inner.listener.codec) && inner.listener.codec.io == io
      ensures inner.listener.endpoint == NewListener(ProtocolInfo(upgrade))
    {
      this.upgrade := upgrade;
      var listener := new Listener.ListenerSelect(io, guard, ProtocolInfo(upgrade));
      inner := ListenerInit(listener);
      LocalInvariants.ListenerInit(guard, ProtocolInfo(upgrade));
    }

    /** `upgrade_inbound`/`upgrade_outbound` with a selected info: never reaches Either's panic. */
    method Start(info: Info, stream: NegotiatedStream.Negotiated)
      requires info in ProtocolInfo(upgrade)
      modifies this
      ensures Valid() && inner.Upgrading? && inner.name == NameOf(info)
      ensures fresh(inner.future) && inner.future.outcomes == [] && inner.future.stream == stream
      ensures Started(upgrade, info, inner.future.leaf) && inner.future.name == NameOf(info)
    {
      OwnInfoReachesLeaf(upgrade, info);
      var future := new LeafFuture(Route(upgrade, info).value, stream, NameOf(info));
      inner := Upgrading(future, NameOf(info));
    }

    /** The DialerInit branch of `poll`: None to go round the loop. */
    method PollDialer() returns (r: Option<ApplyPoll>)
      requires Valid() && inner.DialerInit?
      modifies this, inner.dialer, inner.dialer.codec, inner.dialer.codec.io
      ensures Valid()
      ensures match r
        case None =>
          && inner.Upgrading? && fresh(inner.future) && inner.future.outcomes == []
          && Continues(upgrade, old(inner).dialer.endpoint.phase, old(inner).dialer.codec, inner.future)
          && inner.future.stream.endpoint == old(inner).dialer.endpoint
        case Some(Pending) =>
          inner == old(inner) && PendingIo(inner.dialer.codec.io, old(|inner.dialer.codec.io.log|))
        case Some(SelectFailed(error)) => inner.Undefined? && old(inner).dialer.endpoint.phase == Failed(error)
        case _ => false
    {
      hide Run, Queue, React, Supported, ProtocolInfo, Route, Feed, CodecStep, WriteSide, Started;
      hide Step, Drive, Decode, NameOf, Encode, Reports;
      var future := inner.dialer;
      var selected;
      var stream;
      ghost var es;
      ghost var before := future.endpoint;
      selected, stream, es := future.Poll();
      DialerGoesOn(future.codec.guard, ProtocolInfo(upgrade), Settle(before), es);
      inner := Undefined;
      match selected {
        case Selected(info) =>
          Start(info, stream);
          r := None;
        case Rejected(error) => r := Some(SelectFailed(error));
        case NotYet =>
          inner := DialerInit(future);
          r := Some(Pending);
      }
    }

    /** The ListenerInit branch of `poll`; `rounds` as in `ListenerSelect.Poll`. */
    method PollListener(rounds: nat) returns (r: Option<ApplyPoll>)
      requires Valid() && inner.ListenerInit?
      modifies this, inner.listener, inner.listener.codec, inner.listener.codec.io
      ensures Valid()
      ensures match r
        case None =>
          && inner.Upgrading? && fresh(inner.future) && inner.future.outcomes == []
          && old(inner).listener.endpoint.phase.Completed?
          && Continues(upgrade, old(inner).listener.endpoint.phase, old(inner).listener.codec, inner.future)
          && inner.future.stream.endpoint == old(inner).listener.endpoint
          && FirstLeaf(Leaves(upgrade), inner.name) == Some(inner.future.leaf)
        case Some(Pending) =>
          && inner == old(inner)
          && (|| PendingIo(inner.listener.codec.io, old(|inner.listener.codec.io.log|))
              || rounds <= 3 * (inner.listener.Frames() - old(inner.listener.Frames())) + 2)
        case Some(SelectFailed(error)) => inner.Undefined? && old(inner).listener.endpoint.phase == Failed(error)
        case _ => false
    {
      hide Run, Queue, React, Supported, ProtocolInfo, Route, Feed, CodecStep, WriteSide, Leaves, FirstLeaf, Find;
      hide Started, Step, Drive, Decode, NameOf, Encode, Reports;
      var future := inner.listener;
      var selected;
      var stream;
      ghost var es;
      ghost var before := future.endpoint;
      selected, stream, es := future.Poll(rounds);
      ListenerGoesOn(future.codec.guard, ProtocolInfo(upgrade), Settle(before), es);
      inner := Undefined;
      match selected {
        case Selected(info) =>
          ListenerStartsLeftmost(future.codec.guard, upgrade, future.endpoint);
          Start(info, stream);
          r := None;
        case Rejected(error) => r := Some(SelectFailed(error));
        case _ =>
          inner := ListenerInit(future);
          r := Some(Pending);
      }
    }

    /** The Upgrade branch of `poll`. */
    method PollLeaf() returns (r: ApplyPoll)
      requires Valid() && inner.Upgrading?
      modifies this, inner.future
      ensures Valid() && (if r.Pending? then inner == old(inner) else inner.Undefined?)
      ensures old(inner).future.outcomes == old(inner.future.outcomes) + [match r
        case Pending => LeafPending
        case Done => LeafDone
        case _ => LeafFailed]
      ensures !r.SelectFailed?
    {
      var future := inner.future;
      var outcome := future.Poll();
      match outcome {
        case LeafDone =>
          inner := Undefined;
          return Done;
        case LeafFailed =>
          inner := Undefined;
          return UpgradeFailed;
        case LeafPending =>
          return Pending;
      }
    }

    /**
     `poll`: negotiates, then polls the future of the leaf that the selected info leads to. `polled` is
     the leaf future that this call polled, and decides the result.
     */
    method Poll(rounds: nat) returns (r: ApplyPoll, ghost polled: LeafFuture?)
      requires Valid() && !inner.Undefined?
      modifies this
      modifies match inner
        case DialerInit(d) => {d, d.codec, d.codec.io}
        case ListenerInit(l) => {l, l.codec, l.codec.io}
        case Upgrading(future, _) => {future}
        case Undefined => {}
      ensures Valid()
      ensures r.Pending? <==> !inner.Undefined?
      ensures r.SelectFailed? ==> polled == null && match old(inner)
        case DialerInit(d) => d.endpoint.phase == Failed(r.error)
        case ListenerInit(l) => l.endpoint.phase == Failed(r.error)
        case _ => false
      ensures r.Done? || r.UpgradeFailed? ==> polled != null
      ensures polled != null ==>
        && polled.outcomes == (if fresh(polled) then [] else old(polled.outcomes)) +
             [match r case Pending => LeafPending case Done => LeafDone case _ => LeafFailed]
        && (r.Pending? ==> inner == Upgrading(polled, polled.name))
      ensures polled == null && r.Pending? ==> inner == old(inner)
      ensures polled == null && r.Pending? && inner.DialerInit? ==>
        PendingIo(inner.dialer.codec.io, old(|inner.dialer.codec.io.log|))
      ensures polled == null && r.Pending? && inner.ListenerInit? ==>
        || PendingIo(inner.listener.codec.io, old(|inner.listener.codec.io.log|))
        || rounds <= 3 * (inner.listener.Frames() - old(inner.listener.Frames())) + 2
      ensures match old(inner)
        case Upgrading(future, _) => polled == future
        case DialerInit(d) => polled != null ==>
          fresh(polled) && Continues(upgrade, d.endpoint.phase, d.codec, polled)
        case ListenerInit(l) => polled != null ==>
          && fresh(polled) && l.endpoint.phase.Completed? && Continues(upgrade, l.endpoint.phase, l.codec, polled)
          && FirstLeaf(Leaves(upgrade), polled.name) == Some(polled.leaf)
        case Undefined => false
    {
      hide Started, Leaves, FirstLeaf, ProtocolInfo, Route;
      var selecting := None;
      match inner {
        case DialerInit(_) => selecting := PollDialer();
        case ListenerInit(_) => selecting := PollListener(rounds);
        case _ =>
      }
      if selecting.Some? {
        return selecting.value, null;
      }
      polled := inner.future;
      r := PollLeaf();
    }
  }

  /** In every run a dialer proposes the names of its leaves from left to right. */
  lemma ProposesInOrder(guard: nat, u: Upgrade, es: seq<Event>)
    requires 1 <= guard <= 4 && Run(guard, Settle(NewDialer(ProtocolInfo(u))), es).Some?
    ensures var sent, all := Run(guard, Settle(NewDialer(ProtocolInfo(u))), es).value.hist.sent, Listings(Leaves(u));
      |sent| <= |all| && forall i | 0 <= i < |sent| :: sent[i] == all[i].name
  {
    hide Settle, Run, Route, NameOf, Listings, Leaves, ProtocolInfo, WriteSide;
    DialerRun(guard, ProtocolInfo(u), es);
    ListedInOrder(u);
  }

  /** A listener that completes starts the leftmost of its leaves with the agreed name. */
  lemma ListenerStartsLeftmost(guard: nat, u: Upgrade, ep: Endpoint)
    requires ListenerInv(guard, ProtocolInfo(u), ep) && ep.phase.Completed?
    ensures ep.phase.info in ProtocolInfo(u)
    ensures Route(u, ep.phase.info).Some?
    ensures Route(u, ep.phase.info) == FirstLeaf(Leaves(u), NameOf(ep.phase.info))
  {
    hide Route, Leaves, ProtocolInfo, FirstLeaf, WriteSide;
    var found := Find(Supported(ProtocolInfo(u)), ep.hist.received[|ep.hist.sent| - 1]);
    assert found == Some(ep.phase.info);
    ListenerReachesLeftmost(u, NameOf(ep.phase.info));
  }

  lemma LazyStepKeepsInfo(guard: nat, ep: Endpoint, e: Event)
    requires 1 <= guard <= 4 && ep.codec.decoder.Valid(guard) && Chosen(ep.phase).Some? && Step(guard, ep, e).Some?
    ensures var phase := Step(guard, ep, e).value.phase; phase.Final() || Chosen(phase) == Chosen(ep.phase)
  {
    hide Feed, CodecStep, NameOf, Decode, Queue;
  }

  /** The stream handed over before its answer is completed under the same info, or not at all. */
  lemma {:induction false} LazyStreamKeepsInfo(guard: nat, ep: Endpoint, es: seq<Event>)
    requires 1 <= guard <= 4 && ep.codec.decoder.Valid(guard) && Chosen(ep.phase).Some? && Run(guard, ep, es).Some?
    ensures var phase := Run(guard, ep, es).value.phase; phase.Final() || Chosen(phase) == Chosen(ep.phase)
  {
    hide Feed, CodecStep, React;
    if es != [] {
      var init, e := es[..|es| - 1], es[|es| - 1];
      LazyStreamKeepsInfo(guard, ep, init);
      if !Run(guard, ep, init).value.phase.Final() {
        LazyStepKeepsInfo(guard, Run(guard, ep, init).value, e);
      }
    }
  }

  /**
   Two composed upgrades over a session: when both streams are completed, the leaf that each side starts
   advertises the agreed name, and the listener's is its leftmost one that does.
   */
  lemma LeavesAgree(guard: nat, dialer: Upgrade, listener: Upgrade, s: Session)
    requires Reached(guard, ProtocolInfo(dialer), ProtocolInfo(listener), s)
    requires s.dialer.phase.Completed? && s.listener.phase.Completed?
    ensures s.dialer.phase.info in ProtocolInfo(dialer) && s.listener.phase.info in ProtocolInfo(listener)
    ensures forall ours, theirs ::
      Started(dialer, s.dialer.phase.info, ours) && Started(listener, s.listener.phase.info, theirs) ==>
        var name := NameOf(s.dialer.phase.info);
        && Advertises(ours, name) && Advertises(theirs, name) && FirstLeaf(Leaves(listener), name) == Some(theirs)
  {
    hide Route, Leaves, ProtocolInfo, Advertises, FirstLeaf, WriteSide, ReadSide, Pipe;
    ReachedInv(guard, ProtocolInfo(dialer), ProtocolInfo(listener), s);
    Agreement(guard, ProtocolInfo(dialer), ProtocolInfo(listener), s);
    ListenerStartsLeftmost(guard, listener, s.listener);
  }
}
