/**
 The wire format: a frame is a 4-byte big-endian length followed by that many payload bytes.
 Everything here is about byte sequences; how they are read and written is in `LengthDelimited.dfy`.
 */
module Frames {
  import opened Prelude

  type Byte = b: int | 0 <= b < 256

  const MAX_LENGTH_SIZE: nat := 4
  // u32::MAX >> MAX_LENGTH_SIZE
  const MAX_FRAME_SIZE: nat := 0xFFF_FFFF

  // What a 4-byte length can announce. Only the encoder enforces MAX_FRAME_SIZE.
  type Payload = s: seq<Byte> | |s| < 0x1_0000_0000

  function Length(h: seq<Byte>): (n: nat)
    requires |h| == 4
    ensures n < 0x1_0000_0000
  {
    (h[0] as int) * 0x100_0000 + (h[1] as int) * 0x1_0000 + (h[2] as int) * 0x100 + h[3]
  }

  function Header(n: nat): (h: seq<Byte>)
    requires n < 0x1_0000_0000
    ensures |h| == 4 && Length(h) == n
  {
    var high := n / 0x100;
    var top := high / 0x100;
    [top / 0x100, top % 0x100, high % 0x100, n % 0x100]
  }

  /** Every 4 bytes are the header of exactly one length. */
  lemma HeaderOfLength(h: seq<Byte>)
    requires |h| == 4
    ensures Header(Length(h)) == h
  {
    var n := Length(h);
    var high := (h[0] as int) * 0x1_0000 + (h[1] as int) * 0x100 + h[2];
    var top := (h[0] as int) * 0x100 + h[1];
    assert n == high * 0x100 + h[3] && n / 0x100 == high && n % 0x100 == h[3];
    assert high == top * 0x100 + h[2] && high / 0x100 == top && high % 0x100 == h[2];
  }

  /** Most significant byte first: headers compare as the lengths do, byte by byte. */
  lemma BigEndian(m: nat, n: nat) returns (i: nat)
    requires m < n < 0x1_0000_0000
    ensures i < 4 && Header(m)[..i] == Header(n)[..i] && Header(m)[i] < Header(n)[i]
  {
    var h, k := Header(m), Header(n);
    i := if h[0] != k[0] then 0 else if h[1] != k[1] then 1 else if h[2] != k[2] then 2 else 3;
    assert Length(h) == m && Length(k) == n;
  }

  function Frame(p: Payload): (f: seq<Byte>)
    ensures |f| == 4 + |p|
  {
    Header(|p|) + p
  }

  function Encoded(ps: seq<Payload>): (bytes: seq<Byte>)
    ensures |bytes| >= 4 * |ps|
  {
    if ps == [] then [] else Frame(ps[0]) + Encoded(ps[1..])
  }

  lemma {:induction false} EncodedConcat(a: seq<Payload>, b: seq<Payload>)
    ensures Encoded(a + b) == Encoded(a) + Encoded(b)
  {
    if a == [] {
      assert a + b == b;
    } else {
      EncodedConcat(a[1..], b);
      assert (a + b)[1..] == a[1..] + b;
      assert (a + b)[0] == a[0];
      Assoc(Frame(a[0]), Encoded(a[1..]), Encoded(b));
    }
  }

  lemma EncodedAppend(ps: seq<Payload>, p: Payload)
    ensures Encoded(ps + [p]) == Encoded(ps) + Frame(p)
  {
    EncodedConcat(ps, [p]);
    assert Encoded([p]) == Frame(p) + Encoded([]);
  }

  /** Bytes that are a proper beginning of a frame, or nothing. */
  predicate Incomplete(x: seq<Byte>)
  {
    |x| < 4 || |x| < 4 + Length(x[..4])
  }

  /** A frame is determined by any byte sequence it begins. */
  lemma FrameIsPrefixFree(p: Payload, q: Payload, x: seq<Byte>, y: seq<Byte>)
    requires Frame(p) + x == Frame(q) + y
    ensures p == q && x == y
  {
    var s, t := Frame(p) + x, Frame(q) + y;
    assert s[..4] == Header(|p|);
    assert t[..4] == Header(|q|);
    assert |p| == |q|;
    assert s[4..4 + |p|] == p;
    assert t[4..4 + |q|] == q;
    assert s[4 + |p|..] == x;
    assert t[4 + |q|..] == y;
  }

  /** Two frame sequences that begin the same byte sequence are prefix-comparable. */
  lemma {:induction false} Comparable(a: seq<Payload>, x: seq<Byte>, b: seq<Payload>, y: seq<Byte>)
    requires Encoded(a) + x <= Encoded(b) + y
    ensures a <= b || b <= a
  {
    hide Header, Frame;
    if a != [] && b != [] {
      var z := (Encoded(b) + y)[|Encoded(a) + x|..];
      var s := (Encoded(a[1..]) + x) + z;
      var t := Encoded(b[1..]) + y;
      assert Frame(a[0]) + s == Frame(b[0]) + t by {
        assert Frame(a[0]) + s == (Encoded(a) + x) + z;
        assert Encoded(b) + y == Frame(b[0]) + t;
      }
      FrameIsPrefixFree(a[0], b[0], s, t);
      Comparable(a[1..], x, b[1..], y);
      assert a == [a[0]] + a[1..] && b == [b[0]] + b[1..];
    }
  }

  lemma Split(a: seq<Payload>, b: seq<Payload>, y: seq<Byte>)
    requires a <= b
    ensures Encoded(b) + y == Encoded(a) + (Encoded(b[|a|..]) + y)
  {
    var c := b[|a|..];
    assert b == a + c;
    EncodedConcat(a, c);
    Assoc(Encoded(a), Encoded(c), y);
  }

  lemma LongerEncoding(a: seq<Payload>, b: seq<Payload>)
    requires a <= b
    ensures Encoded(a) <= Encoded(b)
    ensures |Encoded(b)| >= |Encoded(a)| + 4 * (|b| - |a|)
  {
    assert b == a + b[|a|..];
    EncodedConcat(a, b[|a|..]);
  }

  /** A parser left with an incomplete frame has returned every whole frame of its input. */
  lemma NoFrameLeft(a: seq<Payload>, x: seq<Byte>, b: seq<Payload>, y: seq<Byte>)
    requires Encoded(b) + y <= Encoded(a) + x && Incomplete(x)
    ensures b <= a
  {
    Comparable(b, y, a, x);
    if |a| < |b| {
      Split(a, b, y);
      PrefixCancel(Encoded(a), Encoded(b[|a|..]) + y, x);
      WholeFrame(b[|a|..], y, x);
    }
  }

  lemma WholeFrame(c: seq<Payload>, y: seq<Byte>, x: seq<Byte>)
    requires c != [] && Encoded(c) + y <= x
    ensures !Incomplete(x)
  {
    assert x[..4] == Header(|c[0]|);
  }

  /** The frames and the unfinished frame in a byte sequence are determined by the bytes. */
  lemma UniqueParse(a: seq<Payload>, x: seq<Byte>, b: seq<Payload>, y: seq<Byte>)
    requires Encoded(a) + x == Encoded(b) + y
    requires Incomplete(x) && Incomplete(y)
    ensures a == b && x == y
  {
    NoFrameLeft(a, x, b, y);
    NoFrameLeft(b, y, a, x);
    assert a == b;
    PrefixCancel(Encoded(a), x, y);
    PrefixCancel(Encoded(a), y, x);
  }

  /** Frames found in a beginning of an encoding are the first frames encoded. */
  lemma WholeInput(frames: seq<Payload>, x: seq<Byte>, sent: seq<Payload>)
    requires Encoded(frames) + x <= Encoded(sent)
    ensures frames <= sent
  {
    assert Encoded(sent) + [] == Encoded(sent);
    Comparable(frames, x, sent, []);
    if sent <= frames {
      LongerEncoding(sent, frames);
    }
  }
}
