/** The standard base64 alphabet with strict canonical decoding: padding is required and the bits
    it leaves over must be zero (sections 3.5 and 4 of RFC 4648). */
module Base64 {
  import opened Prelude

  type sextet = x: int | 0 <= x < 64

  /** The code of the padding character '='. */
  const PAD: byte := 61

  function Char(v: sextet): byte {
    if v < 26 then v + 65
    else if v < 52 then v + 71
    else if v < 62 then v - 4
    else if v == 62 then 43
    else 47
  }

  predicate IsAlphabet(c: byte) {
    65 <= c <= 90 || 97 <= c <= 122 || 48 <= c <= 57 || c == 43 || c == 47
  }

  function Value(c: byte): (v: sextet)
    requires IsAlphabet(c)
    ensures Char(v) == c
  {
    if 65 <= c <= 90 then c - 65
    else if 97 <= c <= 122 then c - 71
    else if 48 <= c <= 57 then c + 4
    else if c == 43 then 62
    else 63
  }

  function Encode(data: seq<byte>): (text: seq<byte>)
    ensures |text| == 4 * ((|data| + 2) / 3)
  {
    if |data| == 0 then []
    else if |data| < 3 then EncodeTail(data)
    else Quad(data[0], data[1], data[2]) + Encode(data[3..])
  }

  /** The last one or two bytes, completed with zero bits and padding. */
  function EncodeTail(data: seq<byte>): (text: seq<byte>)
    requires 1 <= |data| <= 2
    ensures |text| == 4
  {
    var q := Quad(data[0], if |data| == 2 then data[1] else 0, 0);
    [q[0], q[1], if |data| == 2 then q[2] else PAD, PAD]
  }

  function Quad(a: byte, b: byte, c: byte): (text: seq<byte>)
    ensures |text| == 4
  {
    var v := Split(a, b, c);
    [Char(v.0), Char(v.1), Char(v.2), Char(v.3)]
  }

  function Split(a: byte, b: byte, c: byte): (sextet, sextet, sextet, sextet) {
    (a / 4, a % 4 * 16 + b / 16, b % 16 * 4 + c / 64, c % 64)
  }

  function Join(a: sextet, b: sextet, c: sextet, d: sextet): (byte, byte, byte) {
    (a * 4 + b / 16, b % 16 * 16 + c / 4, c % 4 * 64 + d)
  }

  /** `None` for a wrong length, a foreign character, misplaced padding or stray bits. */
  function Decode(text: seq<byte>): (data: Option<seq<byte>>) {
    if |text| == 0 then Some([])
    else if |text| < 4 || !IsAlphabet(text[0]) || !IsAlphabet(text[1]) then None
    else if |text| == 4 && text[3] == PAD then DecodeTail(text[0], text[1], text[2])
    else if !IsAlphabet(text[2]) || !IsAlphabet(text[3]) then None
    else
      match Decode(text[4..])
      case None => None
      case Some(rest) =>
        Some(Triple(Value(text[0]), Value(text[1]), Value(text[2]), Value(text[3])) + rest)
  }

  function Triple(a: sextet, b: sextet, c: sextet, d: sextet): seq<byte> {
    var t := Join(a, b, c, d);
    [t.0, t.1, t.2]
  }

  function DecodeTail(a: byte, b: byte, c: byte): Option<seq<byte>>
    requires IsAlphabet(a) && IsAlphabet(b)
  {
    if c == PAD then
      if Value(b) % 16 == 0 then Some([Value(a) * 4 + Value(b) / 16]) else None
    else if IsAlphabet(c) && Value(c) % 4 == 0 then
      Some([Value(a) * 4 + Value(b) / 16, Value(b) % 16 * 16 + Value(c) / 4])
    else None
  }

  lemma CharIsAlphabet(v: sextet)
    ensures IsAlphabet(Char(v)) && Value(Char(v)) == v && Char(v) != PAD
  {
  }

  lemma JoinInvertsSplit(a: byte, b: byte, c: byte)
    ensures var v := Split(a, b, c); Join(v.0, v.1, v.2, v.3) == (a, b, c)
  {
    var v := Split(a, b, c);
    assert v.1 / 16 == a % 4 && v.1 % 16 == b / 16;
    assert v.2 / 4 == b % 16 && v.2 % 4 == c / 64;
  }

  lemma SplitInvertsJoin(a: sextet, b: sextet, c: sextet, d: sextet)
    ensures var t := Join(a, b, c, d); Split(t.0, t.1, t.2) == (a, b, c, d)
  {
    var t := Join(a, b, c, d);
    assert t.0 / 4 == a && t.0 % 4 == b / 16;
    assert t.1 / 16 == b % 16 && t.1 % 16 == c / 4;
    assert t.2 / 64 == c % 4 && t.2 % 64 == d;
  }

  predicate Codes(c: byte, v: sextet) {
    IsAlphabet(c) && Value(c) == v && c != PAD
  }

  lemma QuadCodes(a: byte, b: byte, c: byte)
    ensures var q, v := Quad(a, b, c), Split(a, b, c);
            Codes(q[0], v.0) && Codes(q[1], v.1) && Codes(q[2], v.2) && Codes(q[3], v.3)
  {
    var v := Split(a, b, c);
    CharIsAlphabet(v.0);
    CharIsAlphabet(v.1);
    CharIsAlphabet(v.2);
    CharIsAlphabet(v.3);
  }

  lemma {:induction false} DecodeInvertsEncode(data: seq<byte>)
    ensures Decode(Encode(data)) == Some(data)
  {
    hide Quad, Value, IsAlphabet, DecodeTail, EncodeTail;
    if |data| == 0 {
    } else if |data| <= 2 {
      DecodeInvertsEncodeTail(data);
    } else {
      var q := Quad(data[0], data[1], data[2]);
      DecodeInvertsEncode(data[3..]);
      DecodeFirstQuad(data[0], data[1], data[2], Encode(data[3..]));
      assert data == [data[0], data[1], data[2]] + data[3..];
    }
  }

  lemma DecodeFirstQuad(a: byte, b: byte, c: byte, tail: seq<byte>)
    requires Decode(tail).Some?
    ensures Decode(Quad(a, b, c) + tail) == Some([a, b, c] + Decode(tail).value)
  {
    QuadCodes(a, b, c);
    JoinInvertsSplit(a, b, c);
    var v := Split(a, b, c);
    DecodeQuad(Quad(a, b, c), v.0, v.1, v.2, v.3, tail);
  }

  lemma DecodeQuad(q: seq<byte>, a: sextet, b: sextet, c: sextet, d: sextet, tail: seq<byte>)
    requires |q| == 4 && Codes(q[0], a) && Codes(q[1], b) && Codes(q[2], c) && Codes(q[3], d)
    requires Decode(tail).Some?
    ensures Decode(q + tail) == Some(Triple(a, b, c, d) + Decode(tail).value)
  {
    assert (q + tail)[4..] == tail;
  }

  lemma DecodeInvertsEncodeTail(data: seq<byte>)
    requires 1 <= |data| <= 2
    ensures var t := EncodeTail(data);
            IsAlphabet(t[0]) && IsAlphabet(t[1]) && t[3] == PAD && DecodeTail(t[0], t[1], t[2]) == Some(data)
  {
    var a, b := data[0], if |data| == 2 then data[1] else 0;
    var v := Split(a, b, 0);
    JoinInvertsSplit(a, b, 0);
    QuadCodes(a, b, 0);
    SplitLeavesZeroBits(a, b);
    DecodePadded(Quad(a, b, 0), v.0, v.1, v.2, |data|);
    assert data == if |data| == 1 then [a] else [a, b];
  }

  lemma SplitLeavesZeroBits(a: byte, b: byte)
    ensures Split(a, 0, 0).1 % 16 == 0 && Split(a, b, 0).2 % 4 == 0
  {
  }

  lemma DecodePadded(q: seq<byte>, a: sextet, b: sextet, c: sextet, count: nat)
    requires |q| == 4 && Codes(q[0], a) && Codes(q[1], b) && Codes(q[2], c)
    requires 1 <= count <= 2
    requires if count == 1 then b % 16 == 0 else c % 4 == 0
    ensures count == 1 ==> DecodeTail(q[0], q[1], PAD) == Some([Join(a, b, c, 0).0])
    ensures count == 2 ==>
              DecodeTail(q[0], q[1], q[2]) == Some([Join(a, b, c, 0).0, Join(a, b, c, 0).1])
  {
  }

  /** Strictness: the decoder accepts only what the encoder writes. */
  lemma {:induction false} EncodeInvertsDecode(text: seq<byte>)
    requires Decode(text).Some?
    ensures Encode(Decode(text).value) == text
  {
    if |text| == 0 {
    } else if |text| == 4 && text[3] == PAD {
      EncodeInvertsDecodeTail(text);
    } else {
      EncodeInvertsDecode(text[4..]);
      var rest := Decode(text[4..]).value;
      var t := Triple(Value(text[0]), Value(text[1]), Value(text[2]), Value(text[3]));
      SplitInvertsJoin(Value(text[0]), Value(text[1]), Value(text[2]), Value(text[3]));
      assert (t + rest)[3..] == rest;
      assert Quad(t[0], t[1], t[2]) == [text[0], text[1], text[2], text[3]];
      assert text == [text[0], text[1], text[2], text[3]] + text[4..];
    }
  }

  lemma EncodeInvertsDecodeTail(text: seq<byte>)
    requires |text| == 4 && text[3] == PAD && Decode(text).Some?
    ensures Encode(Decode(text).value) == text
  {
    var a, b := Value(text[0]), Value(text[1]);
    var c := if text[2] == PAD then 0 else Value(text[2]);
    SplitInvertsJoin(a, b, c, 0);
    var t := Join(a, b, c, 0);
    var data := Decode(text).value;
    assert text == [text[0], text[1], text[2], PAD];
    if text[2] == PAD {
      assert data == [t.0] && t.1 == 0;
    } else {
      assert data == [t.0, t.1] && t.2 == 0;
    }
  }

  /** Encoding keeps distinct byte strings distinct. */
  lemma EncodeInjective(a: seq<byte>, b: seq<byte>)
    requires Encode(a) == Encode(b)
    ensures a == b
  {
    DecodeInvertsEncode(a);
    DecodeInvertsEncode(b);
  }

  // ---------------------------------------------------------------- the standard's alphabet and bit order

  /** Table 1 of RFC 4648. */
  function StandardChar(v: nat): char
    requires v < 64
  {
    if v < 26 then 'A' + v as char
    else if v < 52 then 'a' + (v - 26) as char
    else if v < 62 then '0' + (v - 52) as char
    else if v == 62 then '+' else '/'
  }

  lemma CharIsTheStandards(v: sextet)
    ensures Char(v) == StandardChar(v) as int
  {
  }

  function At(data: seq<byte>, i: nat): byte {
    if i < |data| then data[i] else 0
  }

  /** Three bytes as one number, the first the most significant; missing ones are zero. */
  function Group(data: seq<byte>, i: nat): nat {
    At(data, 3 * i) * 65536 + At(data, 3 * i + 1) * 256 + At(data, 3 * i + 2)
  }

  /** Digit `j` of a number written with four digits to the base 64. */
  function Digit(n: nat, j: nat): (d: nat)
    ensures d < 64
  {
    if j == 0 then n / 64 / 64 / 64 % 64
    else if j == 1 then n / 64 / 64 % 64
    else if j == 2 then n / 64 % 64
    else n % 64
  }

  lemma LowDigit(high: nat, low: nat)
    requires low < 64
    ensures (high * 64 + low) / 64 == high && (high * 64 + low) % 64 == low
  {
  }

  lemma DigitsOf(a: sextet, b: sextet, c: sextet, d: sextet)
    ensures var n := ((a * 64 + b) * 64 + c) * 64 + d;
            Digit(n, 0) == a && Digit(n, 1) == b && Digit(n, 2) == c && Digit(n, 3) == d
  {
    LowDigit((a * 64 + b) * 64 + c, d);
    LowDigit(a * 64 + b, c);
    LowDigit(a, b);
  }

  lemma SplitNumber(a: byte, b: byte, c: byte)
    ensures var v := Split(a, b, c); ((v.0 * 64 + v.1) * 64 + v.2) * 64 + v.3 == a * 65536 + b * 256 + c
  {
  }

  lemma QuadIsTheStandards(a: byte, b: byte, c: byte, j: nat)
    requires j < 4
    ensures Quad(a, b, c)[j] == StandardChar(Digit(a * 65536 + b * 256 + c, j)) as int
  {
    hide Char, Digit, Split, StandardChar;
    var v := Split(a, b, c);
    SplitNumber(a, b, c);
    DigitsOf(v.0, v.1, v.2, v.3);
    CharIsTheStandards([v.0, v.1, v.2, v.3][j]);
  }

  /** Every character of an encoding: the digits of successive groups of three bytes in the standard
      alphabet, and '=' where a group has no byte for the digit. */
  lemma {:induction false} EncodeIsTheStandards(data: seq<byte>, i: nat, j: nat)
    requires 3 * i < |data| && j < 4
    ensures 4 * i + j < |Encode(data)|
    ensures Encode(data)[4 * i + j] ==
            if 3 * i + j <= |data| then StandardChar(Digit(Group(data, i), j)) as int else 61
  {
    hide Digit, Quad, StandardChar, EncodeTail, Group;
    if i == 0 {
      FirstGroup(data, j);
    } else {
      EncodeIsTheStandards(data[3..], i - 1, j);
      LaterGroup(data, i);
      assert Encode(data) == Quad(data[0], data[1], data[2]) + Encode(data[3..]);
    }
  }

  lemma LaterGroup(data: seq<byte>, i: nat)
    requires i > 0 && |data| >= 3
    ensures Group(data, i) == Group(data[3..], i - 1)
  {
    assert At(data, 3 * i) == At(data[3..], 3 * i - 3) && At(data, 3 * i + 1) == At(data[3..], 3 * i - 2);
    assert At(data, 3 * i + 2) == At(data[3..], 3 * i - 1);
  }

  lemma FirstGroup(data: seq<byte>, j: nat)
    requires data != [] && j < 4
    ensures Encode(data)[j] == if j <= |data| then StandardChar(Digit(Group(data, 0), j)) as int else 61
  {
    hide Digit, Quad, StandardChar, Group, At, Split;
    GroupZero(data);
    QuadIsTheStandards(At(data, 0), At(data, 1), At(data, 2), j);
    FirstFour(data);
  }

  lemma GroupZero(data: seq<byte>)
    ensures Group(data, 0) == At(data, 0) * 65536 + At(data, 1) * 256 + At(data, 2)
  {
  }

  lemma FirstFour(data: seq<byte>)
    requires data != []
    ensures var q := Quad(At(data, 0), At(data, 1), At(data, 2));
            forall j: nat | j < 4 :: Encode(data)[j] == if j <= |data| then q[j] else 61
  {
    hide Quad;
  }
}
