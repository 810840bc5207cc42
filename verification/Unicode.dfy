/** What `Messages.Utf8` means: the encodings of sequences of Unicode scalar values (RFC 3629). */
module Unicode {
  import opened Frames
  import opened Messages

  predicate Scalar(c: nat)
  {
    c < 0xD800 || 0xE000 <= c < 0x11_0000
  }

  /** The table of section 3 of RFC 3629. */
  function EncodeScalar(c: nat): (s: seq<Byte>)
    requires Scalar(c)
  {
    if c < 0x80 then [c]
    else if c < 0x800 then [0xC0 + c / 0x40, 0x80 + c % 0x40]
    else if c < 0x1_0000 then [0xE0 + c / 0x1000, 0x80 + c / 0x40 % 0x40, 0x80 + c % 0x40]
    else [0xF0 + c / 0x4_0000, 0x80 + c / 0x1000 % 0x40, 0x80 + c / 0x40 % 0x40, 0x80 + c % 0x40]
  }

  predicate Scalars(text: seq<nat>)
  {
    forall c | c in text :: Scalar(c)
  }

  function EncodeText(text: seq<nat>): (s: seq<Byte>)
    requires Scalars(text)
  {
    if text == [] then [] else EncodeScalar(text[0]) + EncodeText(text[1..])
  }

  /** The first character of an encoded text is recognised. */
  lemma CharIsFound(c: nat, rest: seq<Byte>)
    requires Scalar(c)
    ensures CharLength(EncodeScalar(c) + rest) == |EncodeScalar(c)|
  {
    var s := EncodeScalar(c) + rest;
    if c < 0x80 {
      assert s[0] == c;
    } else if c < 0x800 {
      assert s[0] == 0xC0 + c / 0x40 && s[1] == 0x80 + c % 0x40;
    } else if c < 0x1_0000 {
      assert s[0] == 0xE0 + c / 0x1000 && s[1] == 0x80 + c / 0x40 % 0x40 && s[2] == 0x80 + c % 0x40;
      var high := c / 0x40;
      assert high / 0x40 == c / 0x1000;
    } else {
      assert s[0] == 0xF0 + c / 0x4_0000 && s[1] == 0x80 + c / 0x1000 % 0x40;
      assert s[2] == 0x80 + c / 0x40 % 0x40 && s[3] == 0x80 + c % 0x40;
      var high := c / 0x1000;
      assert high / 0x40 == c / 0x4_0000;
    }
  }

  lemma SixBits(high: nat, low: nat)
    requires low < 0x40
    ensures (high * 0x40 + low) / 0x40 == high && (high * 0x40 + low) % 0x40 == low
    ensures (high * 0x40 + low) / 0x1000 == high / 0x40 && (high * 0x40 + low) / 0x4_0000 == high / 0x1000
  {
  }

  lemma TwoBytes(s: seq<Byte>) returns (c: nat)
    requires CharLength(s) == 2
    ensures Scalar(c) && EncodeScalar(c) == s[..2]
  {
    var lead: int, last: int := s[0] - 0xC0, s[1] - 0x80;
    c := lead * 0x40 + last;
    SixBits(lead, last);
  }

  lemma ThreeBytes(s: seq<Byte>) returns (c: nat)
    requires CharLength(s) == 3
    ensures Scalar(c) && EncodeScalar(c) == s[..3]
  {
    var lead: int, second: int, last: int := s[0] - 0xE0, s[1] - 0x80, s[2] - 0x80;
    var high := lead * 0x40 + second;
    c := high * 0x40 + last;
    SixBits(lead, second);
    SixBits(high, last);
  }

  lemma FourBytes(s: seq<Byte>) returns (c: nat)
    requires CharLength(s) == 4
    ensures Scalar(c) && EncodeScalar(c) == s[..4]
  {
    var lead: int, second: int, third: int, last: int := s[0] - 0xF0, s[1] - 0x80, s[2] - 0x80, s[3] - 0x80;
    var top := lead * 0x40 + second;
    var high := top * 0x40 + third;
    c := high * 0x40 + last;
    SixBits(lead, second);
    SixBits(top, third);
    SixBits(high, last);
  }

  /** What is recognised as a character encodes a scalar value. */
  lemma CharIsScalar(s: seq<Byte>) returns (c: nat)
    requires CharLength(s) > 0
    ensures Scalar(c) && EncodeScalar(c) == s[..CharLength(s)]
  {
    if CharLength(s) == 1 {
      c := s[0];
    } else if CharLength(s) == 2 {
      c := TwoBytes(s);
    } else if CharLength(s) == 3 {
      c := ThreeBytes(s);
    } else {
      c := FourBytes(s);
    }
  }

  lemma {:induction false} TextIsUtf8(text: seq<nat>)
    requires Scalars(text)
    ensures Utf8(EncodeText(text))
  {
    hide CharLength, EncodeScalar;
    if text != [] {
      var rest := EncodeText(text[1..]);
      TextIsUtf8(text[1..]);
      CharIsFound(text[0], rest);
      NoCharIsEmpty(text[0]);
      assert (EncodeScalar(text[0]) + rest)[|EncodeScalar(text[0])|..] == rest;
    }
  }

  lemma NoCharIsEmpty(c: nat)
    requires Scalar(c)
    ensures EncodeScalar(c) != []
  {
  }

  lemma {:induction false} Utf8IsText(s: seq<Byte>) returns (text: seq<nat>)
    requires Utf8(s)
    ensures Scalars(text) && EncodeText(text) == s
  {
    hide CharLength, EncodeScalar, Scalar;
    if s == [] {
      text := [];
    } else {
      var n := CharLength(s);
      var c := CharIsScalar(s);
      var rest := Utf8IsText(s[n..]);
      text := [c] + rest;
      assert text[1..] == rest && s == s[..n] + s[n..];
    }
  }

  /** Valid UTF-8 is exactly the encodings of texts. */
  lemma Utf8Iff(s: seq<Byte>)
    ensures Utf8(s) <==> exists text :: Scalars(text) && EncodeText(text) == s
  {
    hide EncodeText, Scalars, Utf8;
    if Utf8(s) {
      var text := Utf8IsText(s);
    }
    forall text | Scalars(text) && EncodeText(text) == s
      ensures Utf8(s)
    {
      TextIsUtf8(text);
    }
  }
}
