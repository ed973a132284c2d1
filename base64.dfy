/**
 * Base64 as defined in section 4 of RFC 4648: the encoding the runtime's
 * `btoa` applies to the binary string built by the text-to-speech function.
 * The alphabet of Table 1 is written as character ranges, and a decoder is
 * given so that the encoding can be shown to lose nothing.
 */
module Base64 {
  import opened Wrappers

  type Byte = b: int | 0 <= b < 256
  type Sextet = v: int | 0 <= v < 64

  /** Table 1 of RFC 4648: 'A'..'Z', 'a'..'z', '0'..'9', '+', '/'. */
  function Digit(v: Sextet): char
  {
    if v < 26 then ('A' as int + v) as char
    else if v < 52 then ('a' as int + (v - 26)) as char
    else if v < 62 then ('0' as int + (v - 52)) as char
    else if v == 62 then '+'
    else '/'
  }

  predicate IsDigit(c: char)
  {
    ('A' <= c <= 'Z') || ('a' <= c <= 'z') || ('0' <= c <= '9') || c == '+' || c == '/'
  }

  /** The inverse of Table 1. */
  function DigitValue(c: char): (v: Sextet)
    requires IsDigit(c)
    ensures Digit(v) == c
  {
    if 'A' <= c <= 'Z' then c as int - 'A' as int
    else if 'a' <= c <= 'z' then c as int - 'a' as int + 26
    else if '0' <= c <= '9' then c as int - '0' as int + 52
    else if c == '+' then 62
    else 63
  }

  lemma DigitRoundTrip(v: Sextet)
    ensures IsDigit(Digit(v)) && DigitValue(Digit(v)) == v
  {
  }

  /** Three octets as four digits: the 24-bit group read as four 6-bit groups, high bits first. */
  function EncodeGroup(b0: Byte, b1: Byte, b2: Byte): (s: string)
    ensures |s| == 4 && forall k :: 0 <= k < 4 ==> IsDigit(s[k])
  {
    DigitRoundTrip(b0 / 4);
    DigitRoundTrip((b0 % 4) * 16 + b1 / 16);
    DigitRoundTrip((b1 % 16) * 4 + b2 / 64);
    DigitRoundTrip(b2 % 64);
    [Digit(b0 / 4), Digit((b0 % 4) * 16 + b1 / 16), Digit((b1 % 16) * 4 + b2 / 64), Digit(b2 % 64)]
  }

  /** The final quantum: one octet gives two digits and "==", two octets three digits and "=". */
  function EncodeTail(tail: seq<Byte>): (s: string)
    requires |tail| < 3
    ensures |s| == if |tail| == 0 then 0 else 4
    ensures forall k :: 0 <= k < |s| ==> (IsDigit(s[k]) <==> k <= |tail|)
  {
    if |tail| == 0 then ""
    else if |tail| == 1 then [Digit(tail[0] / 4), Digit((tail[0] % 4) * 16), '=', '=']
    else [Digit(tail[0] / 4), Digit((tail[0] % 4) * 16 + tail[1] / 16), Digit((tail[1] % 16) * 4), '=']
  }

  function Encode(data: seq<Byte>): (s: string)
    ensures |s| == 4 * ((|data| + 2) / 3)
    decreases |data|
  {
    if |data| < 3 then EncodeTail(data)
    else EncodeGroup(data[0], data[1], data[2]) + Encode(data[3..])
  }

  /** Every character of an encoding is a digit, except for padding `=` in the last two places. */
  lemma {:induction false} EncodeAlphabet(data: seq<Byte>)
    ensures var s := Encode(data);
      forall k :: 0 <= k < |s| ==> (IsDigit(s[k]) || s[k] == '=') && (s[k] == '=' ==> k >= |s| - 2)
    decreases |data|
  {
    if |data| >= 3 {
      EncodeAlphabet(data[3..]);
      var s := Encode(data);
      assert s == EncodeGroup(data[0], data[1], data[2]) + Encode(data[3..]);
      forall k | 0 <= k < |s|
        ensures (IsDigit(s[k]) || s[k] == '=') && (s[k] == '=' ==> k >= |s| - 2)
      {
        if k >= 4 {
          assert s[k] == Encode(data[3..])[k - 4];
        }
      }
    }
  }

  /** Four digits back to three octets. */
  function DecodeGroup(c0: Sextet, c1: Sextet, c2: Sextet, c3: Sextet): seq<Byte>
  {
    [c0 * 4 + c1 / 16, (c1 % 16) * 16 + c2 / 4, (c2 % 4) * 64 + c3]
  }

  /** Decoding: `None` when the text is not a whole number of quanta or holds a character outside the alphabet. */
  function Decode(s: string): (r: Option<seq<Byte>>)
    decreases |s|
  {
    if s == [] then Some([])
    else if |s| < 4 || !IsDigit(s[0]) || !IsDigit(s[1]) then None
    else if |s| == 4 && s[2] == '=' && s[3] == '=' then
      Some([DecodeGroup(DigitValue(s[0]), DigitValue(s[1]), 0, 0)[0]])
    else if |s| == 4 && IsDigit(s[2]) && s[3] == '=' then
      Some(DecodeGroup(DigitValue(s[0]), DigitValue(s[1]), DigitValue(s[2]), 0)[..2])
    else if !IsDigit(s[2]) || !IsDigit(s[3]) then None
    else
      match Decode(s[4..])
      case None => None
      case Some(rest) => Some(DecodeGroup(DigitValue(s[0]), DigitValue(s[1]), DigitValue(s[2]), DigitValue(s[3])) + rest)
  }

  lemma GroupRoundTrip(b0: Byte, b1: Byte, b2: Byte)
    ensures DecodeGroup(b0 / 4, (b0 % 4) * 16 + b1 / 16, (b1 % 16) * 4 + b2 / 64, b2 % 64) == [b0, b1, b2]
  {
    assert ((b0 % 4) * 16 + b1 / 16) / 16 == b0 % 4;
    assert ((b0 % 4) * 16 + b1 / 16) % 16 == b1 / 16;
    assert ((b1 % 16) * 4 + b2 / 64) / 4 == b1 % 16;
    assert ((b1 % 16) * 4 + b2 / 64) % 4 == b2 / 64;
  }

  lemma DecodeOneOctet(b0: Byte)
    ensures Decode(EncodeTail([b0])) == Some([b0])
  {
    DigitRoundTrip(b0 / 4);
    DigitRoundTrip((b0 % 4) * 16);
    assert ((b0 % 4) * 16) / 16 == b0 % 4;
    assert DecodeGroup(b0 / 4, (b0 % 4) * 16, 0, 0)[0] == b0;
  }

  lemma DecodeTwoOctets(b0: Byte, b1: Byte)
    ensures Decode(EncodeTail([b0, b1])) == Some([b0, b1])
  {
    DigitRoundTrip(b0 / 4);
    DigitRoundTrip((b0 % 4) * 16 + b1 / 16);
    DigitRoundTrip((b1 % 16) * 4);
    GroupRoundTrip(b0, b1, 0);
    assert DecodeGroup(b0 / 4, (b0 % 4) * 16 + b1 / 16, (b1 % 16) * 4, 0)[..2] == [b0, b1];
  }

  /** A full quantum of four digits followed by decodable text decodes to its three octets and then the rest. */
  lemma DecodeQuantum(s: string)
    requires |s| >= 4 && IsDigit(s[0]) && IsDigit(s[1]) && IsDigit(s[2]) && IsDigit(s[3])
    requires Decode(s[4..]).Some?
    ensures Decode(s) == Some(DecodeGroup(DigitValue(s[0]), DigitValue(s[1]), DigitValue(s[2]), DigitValue(s[3]))
                              + Decode(s[4..]).value)
  {
  }

  lemma DecodeGroupFirst(b0: Byte, b1: Byte, b2: Byte, rest: string)
    requires Decode(rest).Some?
    ensures Decode(EncodeGroup(b0, b1, b2) + rest) == Some([b0, b1, b2] + Decode(rest).value)
  {
    DigitRoundTrip(b0 / 4);
    DigitRoundTrip((b0 % 4) * 16 + b1 / 16);
    DigitRoundTrip((b1 % 16) * 4 + b2 / 64);
    DigitRoundTrip(b2 % 64);
    GroupRoundTrip(b0, b1, b2);
    var s := EncodeGroup(b0, b1, b2) + rest;
    assert s[4..] == rest;
    DecodeQuantum(s);
  }

  /** The final quantum decodes to the octets it was made from. */
  lemma DecodeEncodeTail(tail: seq<Byte>)
    requires |tail| < 3
    ensures Decode(EncodeTail(tail)) == Some(tail)
  {
    if |tail| == 1 {
      assert tail == [tail[0]];
      DecodeOneOctet(tail[0]);
    } else if |tail| == 2 {
      assert tail == [tail[0], tail[1]];
      DecodeTwoOctets(tail[0], tail[1]);
    }
  }

  /** One step of the decoder over a leading quantum of three octets. */
  lemma DecodeEncodeCons(b0: Byte, b1: Byte, b2: Byte, rest: seq<Byte>)
    requires Decode(Encode(rest)) == Some(rest)
    ensures Decode(Encode([b0, b1, b2] + rest)) == Some([b0, b1, b2] + rest)
  {
    var data := [b0, b1, b2] + rest;
    assert data[3..] == rest;
    assert Encode(data) == EncodeGroup(b0, b1, b2) + Encode(rest);
    DecodeGroupFirst(b0, b1, b2, Encode(rest));
  }

  /** Decoding an encoding gives back the original octets. */
  lemma {:induction false} DecodeEncode(data: seq<Byte>)
    ensures Decode(Encode(data)) == Some(data)
    decreases |data|
  {
    if |data| < 3 {
      DecodeEncodeTail(data);
    } else {
      var rest := data[3..];
      assert data == [data[0], data[1], data[2]] + rest;
      DecodeEncode(rest);
      DecodeEncodeCons(data[0], data[1], data[2], rest);
    }
  }
}
