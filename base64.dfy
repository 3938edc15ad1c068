/**
 * Base64 as in section 4 of RFC 4648 (the standard alphabet, `=` padding),
 * which `Buffer.prototype.toString('base64')` produces for the final image.
 */
module Base64 {
  import opened Wrappers
  import opened Values

  /** The character for the 6-bit value `i` (table 1 of RFC 4648). */
  function Digit(i: int): (c: char)
    requires 0 <= i < 64
  {
    if i < 26 then ('A' as int + i) as char
    else if i < 52 then ('a' as int + i - 26) as char
    else if i < 62 then ('0' as int + i - 52) as char
    else if i == 62 then '+'
    else '/'
  }

  /** The 6-bit value of an alphabet character; `None` for anything else. */
  function DigitValue(c: char): (v: Option<int>)
    ensures v.Some? ==> 0 <= v.value < 64
  {
    if 'A' <= c <= 'Z' then Some(c as int - 'A' as int)
    else if 'a' <= c <= 'z' then Some(c as int - 'a' as int + 26)
    else if '0' <= c <= '9' then Some(c as int - '0' as int + 52)
    else if c == '+' then Some(62)
    else if c == '/' then Some(63)
    else None
  }

  /** Every alphabet character reads back as the value it encodes, and `=` is not one. */
  lemma DigitRoundTrip(i: int)
    requires 0 <= i < 64
    ensures DigitValue(Digit(i)) == Some(i)
    ensures Digit(i) != '='
  {
  }

  predicate IsDigitChar(c: char) {
    DigitValue(c).Some?
  }

  /** Three bytes become four characters. */
  function EncodeTriple(b0: byte, b1: byte, b2: byte): string {
    [Digit(b0 / 4), Digit((b0 % 4) * 16 + b1 / 16), Digit((b1 % 16) * 4 + b2 / 64), Digit(b2 % 64)]
  }

  /** The last one or two bytes, padded with `=`. */
  function EncodeTail(data: seq<byte>): (r: string)
    requires |data| < 3
    ensures |r| == (|data| + 2) / 3 * 4
  {
    if |data| == 0 then ""
    else if |data| == 1 then [Digit(data[0] / 4), Digit((data[0] % 4) * 16), '=', '=']
    else [Digit(data[0] / 4), Digit((data[0] % 4) * 16 + data[1] / 16), Digit((data[1] % 16) * 4), '=']
  }

  function Encode(data: seq<byte>): (r: string)
    ensures |r| == (|data| + 2) / 3 * 4
    decreases |data|
  {
    if |data| < 3 then EncodeTail(data)
    else EncodeTriple(data[0], data[1], data[2]) + Encode(data[3..])
  }

  /** The inverse of one four-character group without padding. */
  function DecodeQuad(v0: int, v1: int, v2: int, v3: int): seq<int> {
    [v0 * 4 + v1 / 16, (v1 % 16) * 16 + v2 / 4, (v2 % 4) * 64 + v3]
  }

  /** Decoding: `None` for text that is not padded base64 of the standard alphabet. */
  function Decode(s: string): (r: Option<seq<int>>)
    decreases |s|
  {
    if |s| == 0 then Some([])
    else if |s| < 4 then None
    else
      var v0 := DigitValue(s[0]);
      var v1 := DigitValue(s[1]);
      if v0.None? || v1.None? then None
      else if |s| == 4 && s[2] == '=' && s[3] == '=' then Some([v0.value * 4 + v1.value / 16])
      else
        var v2 := DigitValue(s[2]);
        if v2.None? then None
        else if |s| == 4 && s[3] == '=' then
          Some([v0.value * 4 + v1.value / 16, (v1.value % 16) * 16 + v2.value / 4])
        else
          var v3 := DigitValue(s[3]);
          if v3.None? then None
          else match Decode(s[4..])
            case None => None
            case Some(rest) => Some(DecodeQuad(v0.value, v1.value, v2.value, v3.value) + rest)
  }

  lemma TripleRoundTrip(b0: byte, b1: byte, b2: byte)
    ensures DecodeQuad(b0 / 4, (b0 % 4) * 16 + b1 / 16, (b1 % 16) * 4 + b2 / 64, b2 % 64) == [b0, b1, b2]
  {
    assert ((b0 % 4) * 16 + b1 / 16) / 16 == b0 % 4;
    assert ((b0 % 4) * 16 + b1 / 16) % 16 == b1 / 16;
    assert ((b1 % 16) * 4 + b2 / 64) / 4 == b1 % 16;
    assert ((b1 % 16) * 4 + b2 / 64) % 4 == b2 / 64;
  }

  /** One byte: two characters and `==`. */
  lemma SingleRoundTrip(data: seq<byte>)
    requires |data| == 1
    ensures Decode(EncodeTail(data)) == Some(data)
  {
    var v1 := (data[0] % 4) * 16;
    DigitRoundTrip(data[0] / 4);
    DigitRoundTrip(v1);
    assert v1 / 16 == data[0] % 4;
    assert data == [data[0]];
  }

  /** Two bytes: three characters and `=`. */
  lemma PairRoundTrip(data: seq<byte>)
    requires |data| == 2
    ensures Decode(EncodeTail(data)) == Some(data)
  {
    var b0, b1 := data[0], data[1];
    var v0, v1, v2 := b0 / 4, (b0 % 4) * 16 + b1 / 16, (b1 % 16) * 4;
    PairArithmetic(b0, b1);
    DigitRoundTrip(v0);
    DigitRoundTrip(v1);
    DigitRoundTrip(v2);
    var s := EncodeTail(data);
    assert s == [Digit(v0), Digit(v1), Digit(v2), '='];
    assert Decode(s) == Some([v0 * 4 + v1 / 16, (v1 % 16) * 16 + v2 / 4]);
    assert data == [b0, b1];
  }

  lemma PairArithmetic(b0: byte, b1: byte)
    ensures (b0 / 4) * 4 + ((b0 % 4) * 16 + b1 / 16) / 16 == b0
    ensures (((b0 % 4) * 16 + b1 / 16) % 16) * 16 + ((b1 % 16) * 4) / 4 == b1
  {
    assert ((b0 % 4) * 16 + b1 / 16) / 16 == b0 % 4;
    assert ((b0 % 4) * 16 + b1 / 16) % 16 == b1 / 16;
  }

  /** A full group in front of a text that decodes to `rest`. */
  lemma GroupThenRest(b0: byte, b1: byte, b2: byte, tail: string, rest: seq<int>)
    requires Decode(tail) == Some(rest)
    ensures Decode(EncodeTriple(b0, b1, b2) + tail) == Some([b0 as int, b1 as int, b2 as int] + rest)
  {
    var t := EncodeTriple(b0, b1, b2);
    var s := t + tail;
    DigitRoundTrip(b0 / 4);
    DigitRoundTrip((b0 % 4) * 16 + b1 / 16);
    DigitRoundTrip((b1 % 16) * 4 + b2 / 64);
    DigitRoundTrip(b2 % 64);
    TripleRoundTrip(b0, b1, b2);
    assert s[..4] == t && s[4..] == tail;
  }

  /** Decoding the encoding gives the bytes back: the encoding loses nothing. */
  lemma {:induction false} EncodeDecode(data: seq<byte>)
    ensures Decode(Encode(data)) == Some(data)
    decreases |data|
  {
    if |data| == 1 {
      SingleRoundTrip(data);
    } else if |data| == 2 {
      PairRoundTrip(data);
    } else if |data| == 0 {
    } else {
      EncodeDecode(data[3..]);
      assert Encode(data) == EncodeTriple(data[0], data[1], data[2]) + Encode(data[3..]);
      GroupThenRest(data[0], data[1], data[2], Encode(data[3..]), data[3..]);
      assert data == [data[0], data[1], data[2]] + data[3..];
    }
  }

  /** The encoding uses only the alphabet, with `=` padding at the end only. */
  lemma {:induction false} EncodeAlphabet(data: seq<byte>)
    ensures forall i :: 0 <= i < |Encode(data)| ==>
      IsDigitChar(Encode(data)[i]) || (Encode(data)[i] == '=' && i >= |Encode(data)| - 2)
    decreases |data|
  {
    if |data| >= 3 {
      EncodeAlphabet(data[3..]);
      var t := EncodeTriple(data[0], data[1], data[2]);
      DigitRoundTrip(data[0] / 4);
      DigitRoundTrip((data[0] % 4) * 16 + data[1] / 16);
      DigitRoundTrip((data[1] % 16) * 4 + data[2] / 64);
      DigitRoundTrip(data[2] % 64);
      assert Encode(data) == t + Encode(data[3..]);
    } else if |data| == 2 {
      DigitRoundTrip(data[0] / 4);
      DigitRoundTrip((data[0] % 4) * 16 + data[1] / 16);
      DigitRoundTrip((data[1] % 16) * 4);
    } else if |data| == 1 {
      DigitRoundTrip(data[0] / 4);
      DigitRoundTrip((data[0] % 4) * 16);
    }
  }
}
