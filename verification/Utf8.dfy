/** What the program's strings are in bytes: the UTF-8 encodings of sequences of Unicode scalar values. */
module Utf8 {
  import opened Prelude
  import opened Nip44

  predicate IsScalar(u: nat) {
    u < 0xD800 || 0xE000 <= u < 0x110000
  }

  function EncodeScalar(u: nat): seq<byte>
    requires IsScalar(u)
  {
    if u < 0x80 then [u]
    else if u < 0x800 then [0xC0 + u / 64, 0x80 + u % 64]
    else if u < 0x10000 then [0xE0 + u / 4096, 0x80 + u / 64 % 64, 0x80 + u % 64]
    else [0xF0 + u / 262144, 0x80 + u / 4096 % 64, 0x80 + u / 64 % 64, 0x80 + u % 64]
  }

  ghost predicate AllScalars(us: seq<nat>) {
    forall i | 0 <= i < |us| :: IsScalar(us[i])
  }

  function EncodeScalars(us: seq<nat>): seq<byte>
    requires AllScalars(us)
  {
    if us == [] then [] else EncodeScalar(us[0]) + EncodeScalars(us[1..])
  }

  function Two(a: int, b: int): int { (a - 0xC0) * 64 + (b - 0x80) }

  function Three(a: int, b: int, c: int): int { ((a - 0xE0) * 64 + (b - 0x80)) * 64 + (c - 0x80) }

  function Four(a: int, b: int, c: int, d: int): int {
    (((a - 0xF0) * 64 + (b - 0x80)) * 64 + (c - 0x80)) * 64 + (d - 0x80)
  }

  lemma LowSix(high: int, low: int)
    requires 0 <= low < 64
    ensures (high * 64 + low) / 64 == high && (high * 64 + low) % 64 == low
  {
  }

  lemma Shifts(u: nat)
    ensures u / 4096 == u / 64 / 64 && u / 262144 == u / 64 / 64 / 64
  {
  }

  lemma TwoBytes(a: byte, b: byte)
    requires 0xC2 <= a <= 0xDF && IsContinuation(b)
    ensures 0x80 <= Two(a, b) < 0x800 && EncodeScalar(Two(a, b)) == [a, b]
  {
    LowSix(a - 0xC0, b - 0x80);
  }

  lemma ThreeBytes(a: byte, b: byte, c: byte)
    requires 0xE0 <= a <= 0xEF && IsContinuation(b) && IsContinuation(c)
    requires (a == 0xE0 ==> b >= 0xA0) && (a == 0xED ==> b <= 0x9F)
    ensures 0x800 <= Three(a, b, c) < 0x10000 && IsScalar(Three(a, b, c))
    ensures EncodeScalar(Three(a, b, c)) == [a, b, c]
  {
    LowSix((a - 0xE0) * 64 + (b - 0x80), c - 0x80);
    LowSix(a - 0xE0, b - 0x80);
    Shifts(Three(a, b, c));
  }

  lemma FourBytes(a: byte, b: byte, c: byte, d: byte)
    requires 0xF0 <= a <= 0xF4 && IsContinuation(b) && IsContinuation(c) && IsContinuation(d)
    requires (a == 0xF0 ==> b >= 0x90) && (a == 0xF4 ==> b <= 0x8F)
    ensures 0x10000 <= Four(a, b, c, d) < 0x110000 && EncodeScalar(Four(a, b, c, d)) == [a, b, c, d]
  {
    LowSix(((a - 0xF0) * 64 + (b - 0x80)) * 64 + (c - 0x80), d - 0x80);
    LowSix((a - 0xF0) * 64 + (b - 0x80), c - 0x80);
    LowSix(a - 0xF0, b - 0x80);
    Shifts(Four(a, b, c, d));
  }

  /** A text that is not empty begins with the encoding of a scalar value, and a text follows. */
  lemma FirstScalar(s: seq<byte>) returns (u: nat, rest: seq<byte>)
    requires s != [] && IsUtf8(s)
    ensures IsScalar(u) && s == EncodeScalar(u) + rest && IsUtf8(rest) && |rest| < |s|
  {
    hide EncodeScalar;
    if s[0] < 0x80 {
      u, rest := s[0], s[1..];
      OneByte(s[0]);
      assert s == [s[0]] + rest;
    } else if s[0] <= 0xDF {
      TwoBytes(s[0], s[1]);
      u, rest := Two(s[0], s[1]), s[2..];
      assert s == [s[0], s[1]] + rest;
    } else if s[0] <= 0xEF {
      ThreeBytes(s[0], s[1], s[2]);
      u, rest := Three(s[0], s[1], s[2]), s[3..];
      assert s == [s[0], s[1], s[2]] + rest;
    } else {
      FourBytes(s[0], s[1], s[2], s[3]);
      u, rest := Four(s[0], s[1], s[2], s[3]), s[4..];
      assert s == [s[0], s[1], s[2], s[3]] + rest;
    }
  }

  lemma OneByte(a: byte)
    requires a < 0x80
    ensures EncodeScalar(a) == [a]
  {
  }

  lemma ScalarIsWellFormed(u: nat, rest: seq<byte>)
    requires IsScalar(u) && IsUtf8(rest)
    ensures IsUtf8(EncodeScalar(u) + rest)
  {
    var s := EncodeScalar(u);
    assert (s + rest)[|s|..] == rest;
    if u >= 0x10000 {
      WideScalar(u);
    } else if u >= 0x800 {
      MiddleScalar(u);
    }
  }

  lemma MiddleScalar(u: nat)
    requires 0x800 <= u < 0x10000 && IsScalar(u)
    ensures (u / 4096 == 0 ==> u / 64 % 64 >= 0x20) && (u / 4096 == 13 ==> u / 64 % 64 < 0x20)
  {
  }

  lemma WideScalar(u: nat)
    requires 0x10000 <= u < 0x110000
    ensures (u / 262144 == 0 ==> u / 4096 % 64 >= 0x10) && (u / 262144 == 4 ==> u / 4096 % 64 < 0x10)
  {
  }

  /** A byte string is a text if and only if it is the encoding of some scalar values. */
  lemma TextsExactly(s: seq<byte>)
    ensures IsUtf8(s) <==> exists us :: AllScalars(us) && EncodeScalars(us) == s
  {
    if IsUtf8(s) { var us := Scalars(s); }
    forall us | AllScalars(us) && EncodeScalars(us) == s ensures IsUtf8(s) { EncodingIsText(us); }
  }

  lemma {:induction false} Scalars(s: seq<byte>) returns (us: seq<nat>)
    requires IsUtf8(s)
    ensures AllScalars(us) && EncodeScalars(us) == s
    decreases |s|
  {
    if s == [] {
      us := [];
    } else {
      var u, rest := FirstScalar(s);
      var more := Scalars(rest);
      us := [u] + more;
      assert us[1..] == more;
    }
  }

  lemma {:induction false} EncodingIsText(us: seq<nat>)
    requires AllScalars(us)
    ensures IsUtf8(EncodeScalars(us))
  {
    if us != [] {
      EncodingIsText(us[1..]);
      ScalarIsWellFormed(us[0], EncodeScalars(us[1..]));
    }
  }
}
