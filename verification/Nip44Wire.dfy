/** The payload byte by byte, as section "Version 2" of NIP-44 lays it out. */
module Nip44Wire {
  import opened Prelude
  import opened Padding
  import opened Nip44
  import Base64

  /** Byte `i` of a text's padding buffer: two bytes of length, most significant first, the text, zeros. */
  function PlainByte(text: seq<byte>, i: nat): int {
    if i == 0 then |text| / 256
    else if i == 1 then |text| % 256
    else if i < 2 + |text| then text[i - 2]
    else 0
  }

  lemma BufferBytes(text: seq<byte>, padded: nat)
    requires |text| <= padded && |text| <= MAX_PLAINTEXT_SIZE
    ensures |Buffer(text, padded)| == 2 + padded
    ensures forall i: nat | i < 2 + padded :: Buffer(text, padded)[i] == PlainByte(text, i)
  {
    var n := |text|;
    assert n % 65536 == n;
  }

  lemma FrameBytes(P: Primitives, key: Bytes32, nonce: Bytes32, buffer: seq<byte>)
    ensures var d := Frame(P, key, nonce, buffer);
            var okm: seq<byte> := P.expand(key, nonce);
            && |d| == 65 + |buffer| && d[0] == 2 && d[1..33] == nonce
            && (forall i: nat | i < |buffer| ::
                  d[33 + i] == Xor(buffer[i], P.keystream(okm[0..32], okm[32..44], i)))
            && d[|d| - 32..] == P.hmac(okm[44..76], d[1..|d| - 32])
  {
    hide Xor;
    var d := Frame(P, key, nonce, buffer);
    var ciphertext := Stream(P, GetMessageKeys(P, key, nonce), buffer);
    assert d[33..|d| - 32] == ciphertext;
    assert d[1..|d| - 32] == nonce + ciphertext;
    forall i: nat | i < |buffer| ensures d[33 + i] == ciphertext[i] {
      assert d[33..|d| - 32][i] == d[33 + i];
    }
  }

  /** What encryption writes. The first 32 bytes that the key derivation gives key the cipher, the next 12
      are its nonce, and the last 32 key the authentication of nonce and ciphertext. */
  lemma EncryptedBytes(P: Primitives, text: Text, key: Bytes32, nonce: Bytes32, payload: seq<byte>, d: seq<byte>)
    requires Encrypted(P, text, key, nonce) == Ok(payload) && Base64.Decode(payload) == Some(d)
    ensures var okm: seq<byte> := P.expand(key, nonce);
            && |d| == 67 + PaddedLen(|text|) && d[0] == 2 && d[1..33] == nonce
            && (forall i: nat | i < 2 + PaddedLen(|text|) ::
                  d[33 + i] == Xor(PlainByte(text, i), P.keystream(okm[0..32], okm[32..44], i)))
            && d[|d| - 32..] == P.hmac(okm[44..76], d[1..|d| - 32])
  {
    hide Xor, Frame, PaddedLen, Buffer, PlainByte, Base64.Encode, Base64.Decode;
    PaddedCoversPlaintext(|text|);
    BufferBytes(text, PaddedLen(|text|));
    FrameBytes(P, key, nonce, SpecBuffer(text));
    Base64.DecodeInvertsEncode(Frame(P, key, nonce, SpecBuffer(text)));
  }

  /** What decryption has read, byte for byte, when it accepts: with the same keys, a correct code over
      nonce and ciphertext, and the text in one of the two paddings. */
  lemma DecryptedBytes(P: Primitives, payload: seq<byte>, key: Bytes32, text: seq<byte>)
    requires Decrypted(P, payload, key) == Ok(text)
    ensures Base64.Decode(payload).Some? && |Base64.Decode(payload).value| >= 99
    ensures var d := Base64.Decode(payload).value;
            && |d| in {67 + PaddedLen(|text|), 67 + LegacyPaddedLen(|text|)}
            && d[0] == 2
            && var okm: seq<byte> := P.expand(key, d[1..33]);
               && (forall i: nat | i < |d| - 65 ::
                     d[33 + i] == Xor(PlainByte(text, i), P.keystream(okm[0..32], okm[32..44], i)))
               && d[|d| - 32..] == P.hmac(okm[44..76], d[1..|d| - 32])
  {
    hide Xor, Frame, PaddedLen, LegacyPaddedLen, Buffer, PlainByte, Base64.Encode, Base64.Decode, Decrypted, IsUtf8;
    var nonce := AcceptedIsSealed(P, payload, key);
    PaddedCoversPlaintext(|text|);
    LegacyCoversPlaintext(|text|);
    var padded := if payload == Base64.Encode(Frame(P, key, nonce, SpecBuffer(text)))
                  then PaddedLen(|text|) else LegacyPaddedLen(|text|);
    assert payload == Base64.Encode(Frame(P, key, nonce, Buffer(text, padded)));
    Base64.DecodeInvertsEncode(Frame(P, key, nonce, Buffer(text, padded)));
    FramedBytes(P, key, nonce, text, padded);
  }

  lemma FramedBytes(P: Primitives, key: Bytes32, nonce: Bytes32, text: seq<byte>, padded: nat)
    requires 32 <= padded && |text| <= padded && |text| <= MAX_PLAINTEXT_SIZE
    ensures var d := Frame(P, key, nonce, Buffer(text, padded));
            var okm: seq<byte> := P.expand(key, nonce);
            && |d| == 67 + padded && d[0] == 2 && d[1..33] == nonce
            && (forall i: nat | i < 2 + padded ::
                  d[33 + i] == Xor(PlainByte(text, i), P.keystream(okm[0..32], okm[32..44], i)))
            && d[|d| - 32..] == P.hmac(okm[44..76], d[1..|d| - 32])
  {
    hide Xor, Frame, Buffer, PlainByte;
    BufferBytes(text, padded);
    FrameBytes(P, key, nonce, Buffer(text, padded));
  }

  /** Which payloads are refused before anything is deciphered, and how: in this order, an empty one or one
      that starts with '#', one outside the size limits, one that is not base64, one of the wrong size or
      version when decoded, and one whose code is not that of its nonce and ciphertext. */
  lemma RefusedUndeciphered(P: Primitives, payload: seq<byte>, key: Bytes32)
    ensures payload == [] || payload[0] == 35 ==> Decrypted(P, payload, key) == Err(UnknownEncryptionVersion)
    ensures payload != [] && payload[0] != 35 && !(132 <= |payload| <= 87472)
            ==> Decrypted(P, payload, key) == Err(InvalidPayloadSize)
    ensures 132 <= |payload| <= 87472 && payload[0] != 35 ==>
              (match Base64.Decode(payload)
               case None => Decrypted(P, payload, key) == Err(Base64Failed)
               case Some(d) =>
                 && (!(99 <= |d| <= 65603) ==> Decrypted(P, payload, key) == Err(InvalidDataSize))
                 && (99 <= |d| <= 65603 && d[0] != 2 ==> Decrypted(P, payload, key) == Err(UnknownVersion))
                 && (99 <= |d| <= 65603 && d[0] == 2 ==>
                       (Decrypted(P, payload, key) == Err(InvalidMac)
                        <==> d[|d| - 32..] != P.hmac(MacKey(P, key, d[1..33]), d[1..|d| - 32]))))
  {
    hide Stream, Base64.Decode, Unpadded, IsUtf8, PaddedLen, LegacyPaddedLen;
    if 132 <= |payload| <= 87472 && payload[0] != 35 && Base64.Decode(payload).Some? {
      var d := Base64.Decode(payload).value;
      if 99 <= |d| <= 65603 && d[0] == 2 {
        assert d[1..33] + d[33..|d| - 32] == d[1..|d| - 32];
        UnpaddedErrors(Stream(P, GetMessageKeys(P, key, d[1..33]), d[33..|d| - 32]));
      }
    }
  }

  /** Bytes 44 to 76 of the key derivation. */
  function MacKey(P: Primitives, key: Bytes32, nonce: Bytes32): Bytes32 {
    var okm: seq<byte> := P.expand(key, nonce);
    okm[44..76]
  }

  lemma UnpaddedErrors(buf: seq<byte>)
    ensures Unpadded(buf).Err? ==>
              Unpadded(buf).error in {PaddedTooShort, InvalidUnpaddedLength, LengthExceedsData, InvalidPadding,
                                      NonZeroPadding}
  {
    hide PaddedLen, LegacyPaddedLen, AllZero;
  }

  /** The length a buffer announces in its first two bytes. */
  function Announced(buf: seq<byte>): (n: nat)
    requires |buf| >= 2
    ensures n < 65536
  {
    var high: int := buf[0];
    var low: int := buf[1];
    high * 256 + low
  }

  /** What `unpad` refuses, and how, in this order: less than three bytes; a length of zero; more text than
      there are bytes; a size that is neither padding of the length; a padding byte that is not zero. */
  lemma UnpadRefusesExactly(buf: seq<byte>, n: nat, spec: nat, legacy: nat)
    requires |buf| >= 2 && n == Announced(buf) && spec == PaddedLen(n) && legacy == LegacyPaddedLen(n)
    ensures Unpadded(buf) == Err(PaddedTooShort) <==> |buf| < 3
    ensures Unpadded(buf) == Err(InvalidUnpaddedLength) <==> |buf| >= 3 && n == 0
    ensures Unpadded(buf) == Err(LengthExceedsData) <==> |buf| >= 3 && n != 0 && 2 + n > |buf|
    ensures Unpadded(buf) == Err(InvalidPadding) <==>
            |buf| >= 3 && n != 0 && 2 + n <= |buf| && |buf| != 2 + spec && |buf| != 2 + legacy
    ensures Unpadded(buf) == Err(NonZeroPadding) <==>
            && |buf| >= 3 && n != 0 && 2 + n <= |buf| && (|buf| == 2 + spec || |buf| == 2 + legacy)
            && exists i | 2 + n <= i < |buf| :: buf[i] != 0
  {
    hide PaddedLen, LegacyPaddedLen, AllZero;
    if 2 + n <= |buf| { ZeroFrom(buf, 2 + n); }
  }

  lemma ZeroFrom(buf: seq<byte>, from: nat)
    requires from <= |buf|
    ensures AllZero(buf[from..]) <==> forall i | from <= i < |buf| :: buf[i] == 0
  {
    if AllZero(buf[from..]) {
      forall i | from <= i < |buf| ensures buf[i] == 0 { assert buf[from..][i - from] == buf[i]; }
    }
  }

  /** Bit `k` of a number, counted from the least significant. */
  function Bit(n: nat, k: nat): nat {
    if k == 0 then n % 2 else Bit(n / 2, k - 1)
  }

  lemma {:induction false} XorBitAt(a: nat, b: nat, width: nat, k: nat)
    requires k < width
    ensures Bit(XorBits(a, b, width), k) == (Bit(a, k) + Bit(b, k)) % 2
  {
    hide XorBits;
    XorBitsLowest(a, b, width);
    var low, high := (a % 2 + b % 2) % 2, XorBits(a / 2, b / 2, width - 1);
    TakeBit(low, high);
    if k > 0 { XorBitAt(a / 2, b / 2, width - 1, k - 1); }
  }

  /** Masking is bitwise: each bit of the result is the sum of the two bits, without carry. */
  lemma XorIsBitwise(a: byte, b: byte, k: nat)
    requires k < 8
    ensures Bit(Xor(a, b), k) == (Bit(a, k) + Bit(b, k)) % 2
  {
    XorBitAt(a, b, 8, k);
  }
}
