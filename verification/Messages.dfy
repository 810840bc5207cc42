/** Negotiation messages and protocol names. */
module Messages {
  import opened Prelude
  import opened Frames

  // ---------------------------------------------------------------------------------------------
  // Strings are the bytes of their UTF-8 encoding
  // ---------------------------------------------------------------------------------------------

  predicate Tail(b: Byte)
  {
    0x80 <= b <= 0xBF
  }

  /** Length of the UTF-8 character that `s` starts with, 0 if there is none (section 4 of RFC 3629). */
  function CharLength(s: seq<Byte>): (n: nat)
    ensures n <= |s| && n <= 4
  {
    if |s| >= 1 && s[0] <= 0x7F then 1
    else if |s| >= 2 && 0xC2 <= s[0] <= 0xDF && Tail(s[1]) then 2
    else if |s| >= 3 && Tail(s[2]) && (
        || (s[0] == 0xE0 && 0xA0 <= s[1] <= 0xBF)
        || (0xE1 <= s[0] <= 0xEC && Tail(s[1]))
        || (s[0] == 0xED && 0x80 <= s[1] <= 0x9F)
        || (0xEE <= s[0] <= 0xEF && Tail(s[1]))) then 3
    else if |s| >= 4 && Tail(s[2]) && Tail(s[3]) && (
        || (s[0] == 0xF0 && 0x90 <= s[1] <= 0xBF)
        || (0xF1 <= s[0] <= 0xF3 && Tail(s[1]))
        || (s[0] == 0xF4 && 0x80 <= s[1] <= 0x8F)) then 4
    else 0
  }

  predicate Utf8(s: seq<Byte>)
  {
    s == [] || (CharLength(s) > 0 && Utf8(s[CharLength(s)..]))
  }

  type Str = s: seq<Byte> | Utf8(s) witness []

  const SLASH: Byte := 0x2F

  predicate StartsWithSlash(s: seq<Byte>)
  {
    |s| > 0 && s[0] == SLASH
  }

  /** What `Protocol::try_from` accepts. */
  predicate IsProtocol(s: seq<Byte>)
  {
    StartsWithSlash(s) && Utf8(s)
  }

  function Shortest(): (s: seq<Byte>)
    ensures IsProtocol(s)
  {
    assert [SLASH][1..] == [];
    [SLASH]
  }

  type Protocol = s: seq<Byte> | IsProtocol(s) witness Shortest()

  // ---------------------------------------------------------------------------------------------
  // Errors
  // ---------------------------------------------------------------------------------------------

  datatype IoError = WriteZero | UnexpectedEof | InvalidData | OtherIo

  datatype NegotiationError =
    | Io(error: IoError)
    | InvalidMessage
    | InvalidProtocol
    | NoAgreement       // NegotiationError::Failed

  datatype Result<+T> = Ok(value: T) | Err(error: NegotiationError)

  // ---------------------------------------------------------------------------------------------
  // Messages
  // ---------------------------------------------------------------------------------------------

  datatype Message = Propose(protocol: Protocol) | NotAvailable

  const NA: seq<Byte> := [0x6E, 0x61]   // "na"

  function Encode(m: Message): (bytes: seq<Byte>)
    ensures bytes == NA <==> m.NotAvailable?
  {
    match m
    case NotAvailable => NA
    case Propose(p) => p
  }

  function Decode(src: seq<Byte>): (r: Result<Message>)
    ensures r.Ok? <==> src == NA || IsProtocol(src)
    ensures r.Ok? ==> Encode(r.value) == src
    ensures r.Err? ==> r.error == if StartsWithSlash(src) then InvalidProtocol else InvalidMessage
  {
    if src == NA then Ok(NotAvailable)
    else if |src| > 0 && src[0] == SLASH then
      if Utf8(src) then Ok(Propose(src)) else Err(InvalidProtocol)
    else Err(InvalidMessage)
  }

  lemma MessageRoundTrip(m: Message)
    ensures Decode(Encode(m)) == Ok(m)
  {
  }

  function Payloads(ms: seq<Message>): (ps: seq<Payload>)
    requires forall m | m in ms :: |Encode(m)| <= MAX_FRAME_SIZE
    ensures |ps| == |ms| && forall i | 0 <= i < |ms| :: ps[i] == Encode(ms[i])
  {
    seq(|ms|, i requires 0 <= i < |ms| => assert ms[i] in ms; Encode(ms[i]))
  }

  /** The wire language is uniquely decodable: different message sequences never share a byte form. */
  lemma WireIsInjective(ms: seq<Message>, ns: seq<Message>)
    requires forall m | m in ms :: |Encode(m)| <= MAX_FRAME_SIZE
    requires forall m | m in ns :: |Encode(m)| <= MAX_FRAME_SIZE
    requires Encoded(Payloads(ms)) == Encoded(Payloads(ns))
    ensures ms == ns
  {
    var a, b := Payloads(ms), Payloads(ns);
    assert Encoded(a) + [] == Encoded(b) + [];
    UniqueParse(a, [], b, []);
    forall i | 0 <= i < |ms|
      ensures ms[i] == ns[i]
    {
      assert a[i] == b[i];
      MessageRoundTrip(ms[i]);
      MessageRoundTrip(ns[i]);
    }
  }

  // ---------------------------------------------------------------------------------------------
  // Protocol infos, as upgrades list them
  // ---------------------------------------------------------------------------------------------

  /** A name, wrapped by the `Either` sides that composed upgrades put around it. */
  datatype Info = Named(text: Str) | Left(inner: Info) | Right(inner: Info)

  /** `AsRef<str>` of an info. */
  function NameOf(info: Info): (name: Str)
  {
    match info
    case Named(text) => text
    case Left(inner) => NameOf(inner)
    case Right(inner) => NameOf(inner)
  }

  /** The listener keeps the infos whose names are valid, in order. */
  function Supported(infos: seq<Info>): (kept: seq<Info>)
    ensures forall info :: info in kept <==> info in infos && IsProtocol(NameOf(info))
  {
    if infos == [] then []
    else if IsProtocol(NameOf(infos[0])) then [infos[0]] + Supported(infos[1..])
    else Supported(infos[1..])
  }

  /** The first supported info with this name. */
  function Find(kept: seq<Info>, name: seq<Byte>): (r: Option<Info>)
    ensures r.Some? ==> r.value in kept && NameOf(r.value) == name
    ensures r.None? ==> forall info | info in kept :: NameOf(info) != name
  {
    if kept == [] then None
    else if NameOf(kept[0]) == name then Some(kept[0])
    else Find(kept[1..], name)
  }
}
