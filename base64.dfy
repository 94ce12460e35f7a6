/** The standard base64 alphabet and padding of section 4 of RFC 4648, as
    Python's `base64.b64encode` produces it, with a decoder as its inverse. */
module Base64 {
  import opened Wrappers

  /** An octet, the element type of Python's `bytes`. */
  type Byte = b: int | 0 <= b < 256

  /** A 6-bit value, one base64 digit. */
  type Sextet = v: int | 0 <= v < 64

  /** The character for a 6-bit value: 'A'..'Z', 'a'..'z', '0'..'9', '+', '/'. */
  function Digit(v: Sextet): char {
    if v < 26 then (65 + v) as char
    else if v < 52 then (97 + v - 26) as char
    else if v < 62 then (48 + v - 52) as char
    else if v == 62 then '+'
    else '/'
  }

  /** The 6-bit value of an alphabet character, if it is one. */
  function DigitValue(c: char): Option<Sextet> {
    if 'A' <= c <= 'Z' then Some(c as int - 65)
    else if 'a' <= c <= 'z' then Some(c as int - 97 + 26)
    else if '0' <= c <= '9' then Some(c as int - 48 + 52)
    else if c == '+' then Some(62)
    else if c == '/' then Some(63)
    else None
  }

  /** The padding character. */
  const Pad: char := '='

  lemma DigitRoundTrip(v: Sextet)
    ensures DigitValue(Digit(v)) == Some(v)
    ensures Digit(v) != Pad
  {
  }

  /** Three octets as four digits. */
  function EncodeGroup(b0: Byte, b1: Byte, b2: Byte): string {
    [Digit(b0 / 4), Digit((b0 % 4) * 16 + b1 / 16), Digit((b1 % 16) * 4 + b2 / 64), Digit(b2 % 64)]
  }

  /** Base64 encoding with '=' padding. */
  function Encode(bs: seq<Byte>): (r: string)
    ensures |r| == 4 * ((|bs| + 2) / 3)
  {
    if |bs| == 0 then ""
    else if |bs| == 1 then [Digit(bs[0] / 4), Digit((bs[0] % 4) * 16), Pad, Pad]
    else if |bs| == 2 then
      [Digit(bs[0] / 4), Digit((bs[0] % 4) * 16 + bs[1] / 16), Digit((bs[1] % 16) * 4), Pad]
    else EncodeGroup(bs[0], bs[1], bs[2]) + Encode(bs[3..])
  }

  /** Four digits as three octets. */
  function DecodeGroup(v0: Sextet, v1: Sextet, v2: Sextet, v3: Sextet): seq<Byte> {
    [v0 * 4 + v1 / 16, (v1 % 16) * 16 + v2 / 4, (v2 % 4) * 64 + v3]
  }

  /** Decoding of padded base64 text; `None` for text that is not of that form. */
  function Decode(s: string): Option<seq<Byte>>
    decreases |s|
  {
    if |s| == 0 then Some([])
    else if |s| < 4 then None
    else
      var d0, d1, d2, d3 := DigitValue(s[0]), DigitValue(s[1]), DigitValue(s[2]), DigitValue(s[3]);
      if d0.None? || d1.None? then None
      else if |s| == 4 && s[2] == Pad && s[3] == Pad then
        if d1.value % 16 == 0 then Some([d0.value * 4 + d1.value / 16]) else None
      else if |s| == 4 && d2.Some? && s[3] == Pad then
        if d2.value % 4 == 0 then Some([d0.value * 4 + d1.value / 16, (d1.value % 16) * 16 + d2.value / 4])
        else None
      else if d2.None? || d3.None? then None
      else
        match Decode(s[4..])
        case None => None
        case Some(rest) => Some(DecodeGroup(d0.value, d1.value, d2.value, d3.value) + rest)
  }

  lemma GroupRoundTrip(b0: Byte, b1: Byte, b2: Byte)
    ensures DecodeGroup(b0 / 4, (b0 % 4) * 16 + b1 / 16, (b1 % 16) * 4 + b2 / 64, b2 % 64) == [b0, b1, b2]
  {
  }

  lemma DecodeEncodeOne(bs: seq<Byte>)
    requires |bs| == 1
    ensures Decode(Encode(bs)) == Some(bs)
  {
    var b0 := bs[0];
    assert bs == [b0];
    var v0, v1 := b0 / 4, (b0 % 4) * 16;
    DigitRoundTrip(v0);
    DigitRoundTrip(v1);
    assert v1 % 16 == 0 && v1 / 16 == b0 % 4;
    assert Encode(bs) == [Digit(v0), Digit(v1), Pad, Pad];
  }

  lemma DecodeEncodeTwo(bs: seq<Byte>)
    requires |bs| == 2
    ensures Decode(Encode(bs)) == Some(bs)
  {
    assert bs == [bs[0], bs[1]];
    DecodeEncodePair(bs[0], bs[1]);
  }

  lemma DecodeEncodePair(b0: Byte, b1: Byte)
    ensures Decode(Encode([b0, b1])) == Some([b0, b1])
  {
    var v0, v1, v2 := b0 / 4, (b0 % 4) * 16 + b1 / 16, (b1 % 16) * 4;
    DigitRoundTrip(v0);
    DigitRoundTrip(v1);
    DigitRoundTrip(v2);
    assert v2 % 4 == 0 && v2 / 4 == b1 % 16;
    assert v1 % 16 == b1 / 16 && v1 / 16 == b0 % 4;
    var s := Encode([b0, b1]);
    assert s == [Digit(v0), Digit(v1), Digit(v2), Pad];
    assert Decode(s) == Some([v0 * 4 + v1 / 16, (v1 % 16) * 16 + v2 / 4]);
  }

  /** Decoding undoes encoding, for every byte string. */
  lemma {:induction false} DecodeEncode(bs: seq<Byte>)
    ensures Decode(Encode(bs)) == Some(bs)
    decreases |bs|
  {
    if |bs| == 1 {
      DecodeEncodeOne(bs);
    } else if |bs| == 2 {
      DecodeEncodeTwo(bs);
    } else if |bs| > 2 {
      DecodeEncode(bs[3..]);
      DecodeEncodeGroup(bs[0], bs[1], bs[2], bs[3..]);
      assert bs == [bs[0], bs[1], bs[2]] + bs[3..];
    }
  }

  /** One step of the round trip: a full group in front of a tail that already
      round-trips. */
  lemma DecodeEncodeGroup(b0: Byte, b1: Byte, b2: Byte, tail: seq<Byte>)
    requires Decode(Encode(tail)) == Some(tail)
    ensures Decode(Encode([b0, b1, b2] + tail)) == Some([b0, b1, b2] + tail)
  {
    var bs := [b0, b1, b2] + tail;
    assert bs[3..] == tail;
    assert Encode(bs) == EncodeGroup(b0, b1, b2) + Encode(tail);
    DecodeCons(b0 / 4, (b0 % 4) * 16 + b1 / 16, (b1 % 16) * 4 + b2 / 64, b2 % 64, Encode(tail), tail);
    GroupRoundTrip(b0, b1, b2);
  }

  /** A full group of four digits decodes to its three octets, followed by the
      decoding of the rest. */
  lemma DecodeCons(v0: Sextet, v1: Sextet, v2: Sextet, v3: Sextet, t: string, rest: seq<Byte>)
    requires Decode(t) == Some(rest)
    ensures Decode([Digit(v0), Digit(v1), Digit(v2), Digit(v3)] + t) == Some(DecodeGroup(v0, v1, v2, v3) + rest)
  {
    DigitRoundTrip(v0);
    DigitRoundTrip(v1);
    DigitRoundTrip(v2);
    DigitRoundTrip(v3);
    var s := [Digit(v0), Digit(v1), Digit(v2), Digit(v3)] + t;
    assert s[4..] == t;
  }

  /** Every character of an encoding is an alphabet digit or padding. */
  lemma {:induction false} EncodeAlphabet(bs: seq<Byte>)
    ensures forall i :: 0 <= i < |Encode(bs)| ==> Encode(bs)[i] == Pad || DigitValue(Encode(bs)[i]).Some?
    decreases |bs|
  {
    if |bs| > 2 {
      EncodeAlphabet(bs[3..]);
      DigitRoundTrip(bs[0] / 4);
      DigitRoundTrip((bs[0] % 4) * 16 + bs[1] / 16);
      DigitRoundTrip((bs[1] % 16) * 4 + bs[2] / 64);
      DigitRoundTrip(bs[2] % 64);
    } else if |bs| == 2 {
      DigitRoundTrip(bs[0] / 4);
      DigitRoundTrip((bs[0] % 4) * 16 + bs[1] / 16);
      DigitRoundTrip((bs[1] % 16) * 4);
    } else if |bs| == 1 {
      DigitRoundTrip(bs[0] / 4);
      DigitRoundTrip((bs[0] % 4) * 16);
    }
  }

  /** The test vectors of section 10 of RFC 4648, the strings "f" to "foobar". */
  lemma EncodeTestVectors()
    ensures Encode([0x66]) == "Zg=="
    ensures Encode([0x66, 0x6F]) == "Zm8="
    ensures Encode([0x66, 0x6F, 0x6F]) == "Zm9v"
    ensures Encode([0x66, 0x6F, 0x6F, 0x62]) == "Zm9vYg=="
    ensures Encode([0x66, 0x6F, 0x6F, 0x62, 0x61]) == "Zm9vYmE="
    ensures Encode([0x66, 0x6F, 0x6F, 0x62, 0x61, 0x72]) == "Zm9vYmFy"
  {
    assert [0x66, 0x6F, 0x6F, 0x62][3..] == [0x62];
    assert [0x66, 0x6F, 0x6F, 0x62, 0x61][3..] == [0x62, 0x61];
    assert [0x66, 0x6F, 0x6F, 0x62, 0x61, 0x72][3..] == [0x62, 0x61, 0x72];
  }
}
