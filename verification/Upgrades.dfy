/** `SelectUpgrade` and `Either` as upgrades: what they advertise and which leaf an info reaches. */
module Upgrades {
  import opened Prelude
  import opened Frames
  import opened Messages

  datatype Upgrade =
    | Leaf(id: nat, names: seq<Str>)                   // any upgrade that is not composed
    | Select(first: Upgrade, second: Upgrade)          // SelectUpgrade
    | EitherLeft(up: Upgrade) | EitherRight(up: Upgrade)

  function Wrapped(left: bool, infos: seq<Info>): (r: seq<Info>)
    ensures |r| == |infos| && forall i | 0 <= i < |r| :: r[i] == if left then Left(infos[i]) else Right(infos[i])
  {
    seq(|infos|, i requires 0 <= i < |infos| => if left then Left(infos[i]) else Right(infos[i]))
  }

  function NamedAll(names: seq<Str>): (r: seq<Info>)
    ensures |r| == |names| && forall i | 0 <= i < |r| :: r[i] == Named(names[i])
  {
    seq(|names|, i requires 0 <= i < |names| => Named(names[i]))
  }

  /** `protocol_info` */
  function ProtocolInfo(u: Upgrade): (infos: seq<Info>)
  {
    match u
    case Leaf(_, names) => NamedAll(names)
    case Select(first, second) => Wrapped(true, ProtocolInfo(first)) + Wrapped(false, ProtocolInfo(second))
    case EitherLeft(up) => Wrapped(true, ProtocolInfo(up))
    case EitherRight(up) => Wrapped(false, ProtocolInfo(up))
  }

  /** The leaf that `upgrade_inbound`/`upgrade_outbound` reach; None is `Either`'s panic or ill-typed. */
  function Route(u: Upgrade, info: Info): (leaf: Option<Upgrade>)
  {
    match (u, info)
    case (Leaf(_, _), Named(_)) => Some(u)
    case (Select(first, _), Left(inner)) => Route(first, inner)
    case (Select(_, second), Right(inner)) => Route(second, inner)
    case (EitherLeft(up), Left(inner)) => Route(up, inner)
    case (EitherRight(up), Right(inner)) => Route(up, inner)
    case _ => None
  }

  /** The leaves in play, from left to right. */
  function Leaves(u: Upgrade): (leaves: seq<Upgrade>)
  {
    match u
    case Leaf(_, _) => [u]
    case Select(first, second) => Leaves(first) + Leaves(second)
    case EitherLeft(up) => Leaves(up)
    case EitherRight(up) => Leaves(up)
  }

  predicate Advertises(leaf: Upgrade, name: seq<Byte>)
  {
    leaf.Leaf? && name in leaf.names
  }

  /** An upgrade's own infos always reach one of its leaves, one that advertises the name. */
  lemma {:induction false} OwnInfoReachesLeaf(u: Upgrade, info: Info)
    requires info in ProtocolInfo(u)
    ensures Route(u, info).Some? && Route(u, info).value in Leaves(u)
    ensures Advertises(Route(u, info).value, NameOf(info))
    decreases u
  {
    match u
    case Leaf(_, names) =>
    case Select(first, second) =>
      match info {
        case Left(inner) => OwnInfoReachesLeaf(first, inner);
        case Right(inner) => OwnInfoReachesLeaf(second, inner);
      }
    case EitherLeft(up) => OwnInfoReachesLeaf(up, info.inner);
    case EitherRight(up) => OwnInfoReachesLeaf(up, info.inner);
  }

  // ---------------------------------------------------------------------------------------------
  // The order in which names are listed, and so proposed
  // ---------------------------------------------------------------------------------------------

  datatype Listing = Listing(leaf: Upgrade, name: Str)

  /** Each leaf with each of its names, in order. */
  function Listings(leaves: seq<Upgrade>): (all: seq<Listing>)
  {
    if leaves == [] then []
    else
      (if leaves[0].Leaf? then NamesOf(leaves[0]) else []) + Listings(leaves[1..])
  }

  function NamesOf(leaf: Upgrade): (all: seq<Listing>)
    requires leaf.Leaf?
    ensures |all| == |leaf.names| && forall i | 0 <= i < |all| :: all[i] == Listing(leaf, leaf.names[i])
  {
    seq(|leaf.names|, i requires 0 <= i < |leaf.names| => Listing(leaf, leaf.names[i]))
  }

  /** Each info stands for the leaf and the name at its position. */
  predicate Stands(u: Upgrade, infos: seq<Info>, all: seq<Listing>)
  {
    && |infos| == |all|
    && forall i | 0 <= i < |infos| :: Route(u, infos[i]) == Some(all[i].leaf) && NameOf(infos[i]) == all[i].name
  }

  lemma {:induction false} ListingsConcat(a: seq<Upgrade>, b: seq<Upgrade>)
    ensures Listings(a + b) == Listings(a) + Listings(b)
  {
    if a == [] {
      assert a + b == b;
    } else {
      assert (a + b)[1..] == a[1..] + b;
      ListingsConcat(a[1..], b);
    }
  }

  lemma WrappedRoute(u: Upgrade, up: Upgrade, left: bool, info: Info)
    requires u.Select? && up == if left then u.first else u.second
    ensures Route(u, if left then Left(info) else Right(info)) == Route(up, info)
    ensures NameOf(if left then Left(info) else Right(info)) == NameOf(info)
  {
    hide Utf8;
  }

  lemma SelectStands(u: Upgrade, left: bool, infos: seq<Info>, all: seq<Listing>)
    requires u.Select? && Stands(if left then u.first else u.second, infos, all)
    ensures Stands(u, Wrapped(left, infos), all)
  {
    hide Route, NameOf, Utf8;
    forall i | 0 <= i < |infos|
      ensures var w := Wrapped(left, infos)[i]; Route(u, w) == Some(all[i].leaf) && NameOf(w) == all[i].name
    {
      WrappedRoute(u, if left then u.first else u.second, left, infos[i]);
    }
  }

  lemma EitherStands(up: Upgrade, infos: seq<Info>, all: seq<Listing>)
    requires Stands(up, infos, all)
    ensures Stands(EitherLeft(up), Wrapped(true, infos), all) && Stands(EitherRight(up), Wrapped(false, infos), all)
  {
    hide Utf8;
  }

  lemma StandsConcat(u: Upgrade, a: seq<Info>, b: seq<Info>, la: seq<Listing>, lb: seq<Listing>)
    requires Stands(u, a, la) && Stands(u, b, lb)
    ensures Stands(u, a + b, la + lb)
  {
    hide Route, NameOf, Utf8;
  }

  /**
   The infos of an upgrade are the names of its leaves from left to right, in each leaf's own order, and
   each leads back to its leaf.
   */
  lemma {:induction false} ListedInOrder(u: Upgrade)
    ensures Stands(u, ProtocolInfo(u), Listings(Leaves(u)))
    decreases u
  {
    hide Utf8;
    match u
    case Leaf(_, _) =>
      assert Listings([u]) == NamesOf(u) + Listings([u][1..]) == NamesOf(u);
    case Select(first, second) =>
      hide Stands, Listings, Route, NameOf, Wrapped;
      ListedInOrder(first);
      ListedInOrder(second);
      SelectStands(u, true, ProtocolInfo(first), Listings(Leaves(first)));
      SelectStands(u, false, ProtocolInfo(second), Listings(Leaves(second)));
      StandsConcat(u, Wrapped(true, ProtocolInfo(first)), Wrapped(false, ProtocolInfo(second)),
        Listings(Leaves(first)), Listings(Leaves(second)));
      ListingsConcat(Leaves(first), Leaves(second));
    case EitherLeft(up) =>
      hide Stands;
      ListedInOrder(up);
      EitherStands(up, ProtocolInfo(up), Listings(Leaves(up)));
    case EitherRight(up) =>
      hide Stands;
      ListedInOrder(up);
      EitherStands(up, ProtocolInfo(up), Listings(Leaves(up)));
  }

  function Names(infos: seq<Info>): (names: seq<Str>)
    ensures |names| == |infos| && forall i | 0 <= i < |infos| :: names[i] == NameOf(infos[i])
  {
    seq(|infos|, i requires 0 <= i < |infos| => NameOf(infos[i]))
  }

  lemma NamesWrapped(left: bool, infos: seq<Info>)
    ensures Names(Wrapped(left, infos)) == Names(infos)
  {
    hide Utf8;
  }

  lemma NamesConcat(a: seq<Info>, b: seq<Info>)
    ensures Names(a + b) == Names(a) + Names(b)
  {
    hide Utf8, NameOf;
  }

  /** The names of a `SelectUpgrade` are those of the first upgrade, then those of the second. */
  lemma SelectChains(first: Upgrade, second: Upgrade)
    ensures Names(ProtocolInfo(Select(first, second))) == Names(ProtocolInfo(first)) + Names(ProtocolInfo(second))
  {
    hide Utf8, NameOf, Names, Wrapped;
    var a, b := ProtocolInfo(first), ProtocolInfo(second);
    NamesConcat(Wrapped(true, a), Wrapped(false, b));
    NamesWrapped(true, a);
    NamesWrapped(false, b);
  }

  // ---------------------------------------------------------------------------------------------
  // Which leaf a listener reaches
  // ---------------------------------------------------------------------------------------------

  function FirstLeaf(leaves: seq<Upgrade>, name: seq<Byte>): (r: Option<Upgrade>)
  {
    if leaves == [] then None
    else if Advertises(leaves[0], name) then Some(leaves[0])
    else FirstLeaf(leaves[1..], name)
  }

  lemma {:induction false} FirstLeafConcat(a: seq<Upgrade>, b: seq<Upgrade>, name: seq<Byte>)
    ensures FirstLeaf(a + b, name) == if FirstLeaf(a, name).Some? then FirstLeaf(a, name) else FirstLeaf(b, name)
  {
    if a == [] {
      assert a + b == b;
    } else {
      assert (a + b)[1..] == a[1..] + b;
      FirstLeafConcat(a[1..], b, name);
    }
  }

  lemma {:induction false} FindConcat(a: seq<Info>, b: seq<Info>, name: seq<Byte>)
    ensures Find(a + b, name) == if Find(a, name).Some? then Find(a, name) else Find(b, name)
  {
    if a == [] {
      assert a + b == b;
    } else {
      assert (a + b)[1..] == a[1..] + b;
      FindConcat(a[1..], b, name);
    }
  }

  lemma {:induction false} FindWrapped(left: bool, infos: seq<Info>, name: seq<Byte>)
    ensures Find(Wrapped(left, infos), name) ==
      match Find(infos, name)
      case None => None
      case Some(info) => Some(if left then Left(info) else Right(info))
  {
    if infos != [] {
      assert Wrapped(left, infos)[1..] == Wrapped(left, infos[1..]);
      FindWrapped(left, infos[1..], name);
    }
  }

  lemma {:induction false} FindNamed(names: seq<Str>, name: Str)
    ensures Find(NamedAll(names), name) == if name in names then Some(Named(name)) else None
  {
    if names != [] {
      assert NamedAll(names)[1..] == NamedAll(names[1..]);
      FindNamed(names[1..], name);
    }
  }

  lemma {:induction false} FindSupported(infos: seq<Info>, name: seq<Byte>)
    requires IsProtocol(name)
    ensures Find(Supported(infos), name) == Find(infos, name)
  {
    if infos != [] {
      FindSupported(infos[1..], name);
      if IsProtocol(NameOf(infos[0])) {
        assert ([infos[0]] + Supported(infos[1..]))[1..] == Supported(infos[1..]);
      }
    }
  }

  /** What the listener finds for a name reaches the leftmost leaf that advertises it. */
  lemma {:induction false} LeftmostLeaf(u: Upgrade, name: Str)
    ensures match Find(ProtocolInfo(u), name)
      case None => FirstLeaf(Leaves(u), name) == None
      case Some(info) => Route(u, info) == FirstLeaf(Leaves(u), name)
  {
    match u
    case Leaf(_, names) =>
      FindNamed(names, name);
      assert FirstLeaf([u][1..], name) == None;
    case Select(first, second) =>
      LeftmostLeaf(first, name);
      LeftmostLeaf(second, name);
      FindWrapped(true, ProtocolInfo(first), name);
      FindWrapped(false, ProtocolInfo(second), name);
      FindConcat(Wrapped(true, ProtocolInfo(first)), Wrapped(false, ProtocolInfo(second)), name);
      FirstLeafConcat(Leaves(first), Leaves(second), name);
      match Find(ProtocolInfo(first), name) {
        case Some(info) => OwnInfoReachesLeaf(first, info);
        case None =>
      }
    case EitherLeft(up) =>
      LeftmostLeaf(up, name);
      FindWrapped(true, ProtocolInfo(up), name);
    case EitherRight(up) =>
      LeftmostLeaf(up, name);
      FindWrapped(false, ProtocolInfo(up), name);
  }

  lemma ListenerReachesLeftmost(u: Upgrade, name: Str)
    requires IsProtocol(name)
    ensures match Find(Supported(ProtocolInfo(u)), name)
      case None => FirstLeaf(Leaves(u), name) == None
      case Some(info) => Route(u, info).Some? && Route(u, info) == FirstLeaf(Leaves(u), name)
  {
    FindSupported(ProtocolInfo(u), name);
    LeftmostLeaf(u, name);
    var found := Find(ProtocolInfo(u), name);
    if found.Some? {
      OwnInfoReachesLeaf(u, found.value);
    }
  }
}
