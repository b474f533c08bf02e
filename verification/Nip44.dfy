/** The NIP-44 version 2 payload: padding, keystream, authentication, framing and base64.

    The key derivation, the ChaCha20 block stream and HMAC are library calls in the program; here they
    are the fields of `Primitives`, so that every result below holds for all of them. */
module Nip44 {
  import opened Prelude
  import opened Padding
  import Base64

  const VERSION: byte := 2
  const HASH: byte := 35  // '#'
  const MIN_PAYLOAD := 132
  const MAX_PAYLOAD := 87472
  const MIN_DATA := 99
  const MAX_DATA := 65603

  type Bytes12 = s: seq<byte> | |s| == 12 witness seq(12, _ => 0)
  type Bytes32 = s: seq<byte> | |s| == 32 witness seq(32, _ => 0)
  type Bytes76 = s: seq<byte> | |s| == 76 witness seq(76, _ => 0)

  datatype Primitives = Primitives(
    expand: (Bytes32, Bytes32) -> Bytes76,
    keystream: (Bytes32, Bytes12, nat) -> byte,
    hmac: (Bytes32, seq<byte>) -> Bytes32)

  datatype MessageKeys = MessageKeys(chachaKey: Bytes32, chachaNonce: Bytes12, hmacKey: Bytes32)

  datatype Error =
    | InvalidPlaintextLength
    | PaddedTooShort
    | InvalidUnpaddedLength
    | LengthExceedsData
    | InvalidPadding
    | NonZeroPadding
    | UnknownEncryptionVersion
    | InvalidPayloadSize
    | Base64Failed
    | InvalidDataSize
    | UnknownVersion
    | InvalidMac
    | InvalidUtf8

  // ---------------------------------------------------------------- text

  predicate IsContinuation(b: byte) { 0x80 <= b <= 0xBF }

  /** Well-formed UTF-8: no overlong form, no surrogate, nothing above U+10FFFF. */
  predicate IsUtf8(s: seq<byte>) {
    if |s| == 0 then true
    else if s[0] < 0x80 then IsUtf8(s[1..])
    else if 0xC2 <= s[0] <= 0xDF then
      |s| >= 2 && IsContinuation(s[1]) && IsUtf8(s[2..])
    else if 0xE0 <= s[0] <= 0xEF then
      |s| >= 3 && IsContinuation(s[1]) && IsContinuation(s[2])
      && (s[0] == 0xE0 ==> s[1] >= 0xA0) && (s[0] == 0xED ==> s[1] <= 0x9F)
      && IsUtf8(s[3..])
    else if 0xF0 <= s[0] <= 0xF4 then
      |s| >= 4 && IsContinuation(s[1]) && IsContinuation(s[2]) && IsContinuation(s[3])
      && (s[0] == 0xF0 ==> s[1] >= 0x90) && (s[0] == 0xF4 ==> s[1] <= 0x8F)
      && IsUtf8(s[4..])
    else false
  }

  /** A string, as its UTF-8 bytes. */
  type Text = s: seq<byte> | IsUtf8(s) witness []

  // ---------------------------------------------------------------- padding buffers

  function Zeros(n: nat): (z: seq<byte>)
    ensures |z| == n && forall i | 0 <= i < n :: z[i] == 0
  {
    seq(n, _ => 0)
  }

  /** Big-endian length, message, zeros up to `padded` bytes after the length. */
  function Buffer(m: seq<byte>, padded: nat): (buf: seq<byte>)
    requires |m| <= padded && |m| <= MAX_PLAINTEXT_SIZE
    ensures |buf| == 2 + padded
  {
    ToBigEndian(|m|) + m + Zeros(padded - |m|)
  }

  /** `(n as u16).to_be_bytes()`. */
  function ToBigEndian(n: nat): seq<byte> { [n % 65536 / 256, n % 256] }

  /** `u16::from_be_bytes`. */
  function BigEndian(high: int, low: int): int { high * 256 + low }

  predicate Encryptable(m: seq<byte>) {
    MIN_PLAINTEXT_SIZE <= |m| <= MAX_PLAINTEXT_SIZE
  }

  function SpecBuffer(m: seq<byte>): seq<byte>
    requires Encryptable(m)
  {
    PaddedCoversPlaintext(|m|);
    Buffer(m, PaddedLen(|m|))
  }

  function LegacyBuffer(m: seq<byte>): seq<byte>
    requires Encryptable(m)
  {
    LegacyCoversPlaintext(|m|);
    Buffer(m, LegacyPaddedLen(|m|))
  }

  /** The buffers that open to `m`. */
  predicate Opens(buf: seq<byte>, m: seq<byte>) {
    Encryptable(m) && (buf == SpecBuffer(m) || buf == LegacyBuffer(m))
  }

  method Resize(v: seq<byte>, n: nat) returns (r: seq<byte>)
    requires |v| <= n
    ensures r == v + Zeros(n - |v|)
  {
    r := v;
    while |r| < n
      invariant |v| <= |r| <= n
      invariant r == v + Zeros(|r| - |v|)
    {
      r := r + [0];
    }
  }

  method Pad(plaintext: seq<byte>) returns (r: Result<seq<byte>, Error>)
    ensures r == if Encryptable(plaintext) then Ok(SpecBuffer(plaintext)) else Err(InvalidPlaintextLength)
  {
    hide PaddedLen;
    var n := |plaintext|;
    if n < MIN_PLAINTEXT_SIZE || n > MAX_PLAINTEXT_SIZE {
      return Err(InvalidPlaintextLength);
    }
    PaddedCoversPlaintext(n);
    var result := ToBigEndian(n);
    result := result + plaintext;
    result := Resize(result, 2 + PaddedLen(n));
    return Ok(result);
  }

  /** Succeeds on exactly the buffers that open to some message, and with that message. */
  method Unpad(padded: seq<byte>) returns (r: Result<seq<byte>, Error>)
    ensures r == Unpadded(padded)
    ensures r.Ok? ==> Opens(padded, r.value)
    ensures r.Err? ==> forall m :: !Opens(padded, m)
  {
    hide PaddedLen, LegacyPaddedLen, Opens;
    UnpaddedExactly(padded);
    if |padded| < 2 + MIN_PLAINTEXT_SIZE { return Err(PaddedTooShort); }
    var n := BigEndian(padded[0], padded[1]);
    if n == 0 || n > MAX_PLAINTEXT_SIZE { return Err(InvalidUnpaddedLength); }
    if 2 + n > |padded| { return Err(LengthExceedsData); }
    if |padded| != 2 + PaddedLen(n) && |padded| != 2 + LegacyPaddedLen(n) {
      return Err(InvalidPadding);
    }
    for i := 2 + n to |padded|
      invariant forall k | 2 + n <= k < i :: padded[k] == 0
    {
      if padded[i] != 0 {
        assert !AllZero(padded[2 + n..]) by { assert padded[2 + n..][i - 2 - n] != 0; }
        return Err(NonZeroPadding);
      }
    }
    return Ok(padded[2..2 + n]);
  }

  predicate AllZero(s: seq<byte>) {
    forall i | 0 <= i < |s| :: s[i] == 0
  }

  function Unpadded(padded: seq<byte>): Result<seq<byte>, Error> {
    if |padded| < 2 + MIN_PLAINTEXT_SIZE then Err(PaddedTooShort) else
    var n := BigEndian(padded[0], padded[1]);
    if n == 0 || n > MAX_PLAINTEXT_SIZE then Err(InvalidUnpaddedLength)
    else if 2 + n > |padded| then Err(LengthExceedsData)
    else if |padded| != 2 + PaddedLen(n) && |padded| != 2 + LegacyPaddedLen(n) then Err(InvalidPadding)
    else if !AllZero(padded[2 + n..]) then Err(NonZeroPadding)
    else Ok(padded[2..2 + n])
  }

  lemma BufferFields(m: seq<byte>, padded: nat)
    requires |m| <= padded && |m| <= MAX_PLAINTEXT_SIZE
    ensures var buf := Buffer(m, padded);
            BigEndian(buf[0], buf[1]) == |m| && buf[2..2 + |m|] == m && AllZero(buf[2 + |m|..])
  {
    var buf := Buffer(m, padded);
    assert buf[2 + |m|..] == Zeros(padded - |m|);
  }

  lemma BufferUnpads(buf: seq<byte>, m: seq<byte>)
    requires Opens(buf, m)
    ensures Unpadded(buf) == Ok(m)
  {
    hide PaddedLen, LegacyPaddedLen;
    PaddedCoversPlaintext(|m|);
    LegacyCoversPlaintext(|m|);
    BufferFields(m, |buf| - 2);
  }

  lemma BigEndianInverts(high: byte, low: byte)
    ensures ToBigEndian(BigEndian(high, low)) == [high, low]
  {
    var n := high * 256 + low;
    assert n < 65536 && n % 65536 == n && n / 256 == high && n % 256 == low;
  }

  lemma AllZeroIs(s: seq<byte>)
    requires AllZero(s)
    ensures s == Zeros(|s|)
  {
  }

  lemma ThreeParts(s: seq<byte>, i: nat, j: nat)
    requires i <= j <= |s|
    ensures s == s[..i] + s[i..j] + s[j..]
  {
  }

  lemma BufferFromParts(buf: seq<byte>, m: seq<byte>)
    requires |m| <= MAX_PLAINTEXT_SIZE && |buf| >= 2 + |m|
    requires BigEndian(buf[0], buf[1]) == |m| && buf[2..2 + |m|] == m && AllZero(buf[2 + |m|..])
    ensures buf == Buffer(m, |buf| - 2)
  {
    hide AllZero, ToBigEndian, BigEndian;
    BigEndianInverts(buf[0], buf[1]);
    assert buf[..2] == [buf[0], buf[1]];
    AllZeroIs(buf[2 + |m|..]);
    ThreeParts(buf, 2, 2 + |m|);
  }

  lemma UnpaddedOpens(buf: seq<byte>)
    requires Unpadded(buf).Ok?
    ensures Opens(buf, Unpadded(buf).value)
  {
    hide PaddedLen, LegacyPaddedLen, Buffer;
    var m := Unpadded(buf).value;
    PaddedCoversPlaintext(|m|);
    LegacyCoversPlaintext(|m|);
    BufferFromParts(buf, m);
  }

  /** `unpad` opens a buffer to `m` exactly when it is one of the two paddings of `m`. */
  lemma UnpaddedExactly(buf: seq<byte>)
    ensures forall m :: Unpadded(buf) == Ok(m) <==> Opens(buf, m)
  {
    forall m: seq<byte> | Opens(buf, m) ensures Unpadded(buf) == Ok(m) { BufferUnpads(buf, m); }
    if Unpadded(buf).Ok? { UnpaddedOpens(buf); }
  }

  // ---------------------------------------------------------------- keystream

  /** Exclusive or of the low `width` bits. */
  function XorBits(a: nat, b: nat, width: nat): (x: nat)
    ensures x < Pow2(width)
  {
    if width == 0 then 0 else (a % 2 + b % 2) % 2 + 2 * XorBits(a / 2, b / 2, width - 1)
  }

  function Xor(a: byte, b: byte): byte {
    SmallPowers();
    XorBits(a, b, 8)
  }

  lemma {:induction false} XorBitsInvolution(a: nat, b: nat, width: nat)
    requires a < Pow2(width)
    ensures XorBits(XorBits(a, b, width), b, width) == a
  {
    hide XorBits;
    XorBitsLowest(a, b, width);
    if width > 0 {
      var low, high := (a % 2 + b % 2) % 2, XorBits(a / 2, b / 2, width - 1);
      XorBitsInvolution(a / 2, b / 2, width - 1);
      TakeBit(low, high);
      XorBitsLowest(low + 2 * high, b, width);
      XorBit(a % 2, b % 2);
    }
  }

  lemma XorBitsLowest(a: nat, b: nat, width: nat)
    ensures width > 0 ==> XorBits(a, b, width) == (a % 2 + b % 2) % 2 + 2 * XorBits(a / 2, b / 2, width - 1)
    ensures width == 0 ==> XorBits(a, b, width) == 0
  {
  }

  lemma XorBit(a: nat, b: nat)
    requires a < 2 && b < 2
    ensures ((a + b) % 2 + b) % 2 == a
  {
  }

  lemma TakeBit(low: nat, high: nat)
    requires low < 2
    ensures (low + 2 * high) % 2 == low && (low + 2 * high) / 2 == high
  {
  }

  lemma XorInvolution(a: byte, b: byte)
    ensures Xor(Xor(a, b), b) == a
  {
    SmallPowers();
    XorBitsInvolution(a, b, 8);
  }

  function Stream(P: Primitives, keys: MessageKeys, data: seq<byte>): (out: seq<byte>)
    ensures |out| == |data|
  {
    seq<byte>(|data|, i requires 0 <= i < |data| => Xor(data[i], P.keystream(keys.chachaKey, keys.chachaNonce, i)))
  }

  lemma StreamInvolution(P: Primitives, keys: MessageKeys, data: seq<byte>)
    ensures Stream(P, keys, Stream(P, keys, data)) == data
  {
    forall i | 0 <= i < |data| ensures Stream(P, keys, Stream(P, keys, data))[i] == data[i] {
      XorInvolution(data[i], P.keystream(keys.chachaKey, keys.chachaNonce, i));
    }
  }

  /** Overwrites the buffer with its exclusive or with the keystream. */
  method ApplyKeystream(P: Primitives, keys: MessageKeys, buffer: array<byte>)
    modifies buffer
    ensures buffer[..] == Stream(P, keys, old(buffer[..]))
  {
    ghost var was := buffer[..];
    for i := 0 to buffer.Length
      invariant buffer[..i] == Stream(P, keys, was)[..i]
      invariant buffer[i..] == was[i..]
    {
      assert buffer[i] == was[i];
      buffer[i] := Xor(buffer[i], P.keystream(keys.chachaKey, keys.chachaNonce, i));
    }
    assert buffer[..] == buffer[..buffer.Length];
  }

  // ---------------------------------------------------------------- sealing and opening

  function GetMessageKeys(P: Primitives, key: Bytes32, nonce: Bytes32): MessageKeys {
    var okm: seq<byte> := P.expand(key, nonce);
    MessageKeys(okm[0..32], okm[32..44], okm[44..76])
  }

  /** The framed bytes of a padded buffer: version, nonce, ciphertext, authentication code. */
  function Frame(P: Primitives, key: Bytes32, nonce: Bytes32, buffer: seq<byte>): (frame: seq<byte>)
    ensures |frame| == 65 + |buffer|
  {
    var keys := GetMessageKeys(P, key, nonce);
    var ciphertext := Stream(P, keys, buffer);
    [VERSION] + nonce + ciphertext + P.hmac(keys.hmacKey, nonce + ciphertext)
  }

  function Encrypted(P: Primitives, text: Text, key: Bytes32, nonce: Bytes32): Result<seq<byte>, Error> {
    if !Encryptable(text) then Err(InvalidPlaintextLength)
    else Ok(Base64.Encode(Frame(P, key, nonce, SpecBuffer(text))))
  }

  method EncryptWithNonce(P: Primitives, text: Text, key: Bytes32, nonce: Bytes32)
    returns (r: Result<seq<byte>, Error>)
    ensures r == Encrypted(P, text, key, nonce)
  {
    var keys := GetMessageKeys(P, key, nonce);
    var padded := Pad(text);
    if padded.Err? { return Err(padded.error); }
    var ciphertext := new byte[|padded.value|](i requires 0 <= i < |padded.value| => padded.value[i]);
    assert ciphertext[..] == padded.value;
    ApplyKeystream(P, keys, ciphertext);
    var mac := P.hmac(keys.hmacKey, nonce + ciphertext[..]);
    var payload := [VERSION];
    payload := payload + nonce;
    payload := payload + ciphertext[..];
    payload := payload + mac;
    return Ok(Base64.Encode(payload));
  }

  /** The checks before any key is derived. */
  function Gate(payload: seq<byte>): (r: Result<seq<byte>, Error>)
    ensures r.Ok? ==> MIN_DATA <= |r.value| <= MAX_DATA
  {
    if |payload| == 0 || payload[0] == HASH then Err(UnknownEncryptionVersion)
    else if |payload| < MIN_PAYLOAD || |payload| > MAX_PAYLOAD then Err(InvalidPayloadSize)
    else
      match Base64.Decode(payload)
      case None => Err(Base64Failed)
      case Some(data) =>
        if |data| < MIN_DATA || |data| > MAX_DATA then Err(InvalidDataSize)
        else if data[0] != VERSION then Err(UnknownVersion)
        else Ok(data)
  }

  /** Authenticates, decrypts and unpads the bytes that passed the gate. */
  function OpenFrame(P: Primitives, data: seq<byte>, key: Bytes32): Result<Text, Error>
    requires |data| >= MIN_DATA
  {
    var nonce: Bytes32 := data[1..33];
    var ciphertext := data[33..|data| - 32];
    var keys := GetMessageKeys(P, key, nonce);
    if P.hmac(keys.hmacKey, nonce + ciphertext) != data[|data| - 32..] then Err(InvalidMac)
    else AsText(Unpadded(Stream(P, keys, ciphertext)))
  }

  function AsText(plain: Result<seq<byte>, Error>): Result<Text, Error> {
    match plain
    case Err(e) => Err(e)
    case Ok(bytes) => if IsUtf8(bytes) then Ok(bytes) else Err(InvalidUtf8)
  }

  function Decrypted(P: Primitives, payload: seq<byte>, key: Bytes32): Result<Text, Error> {
    match Gate(payload)
    case Err(e) => Err(e)
    case Ok(data) => OpenFrame(P, data, key)
  }

  method Decrypt(P: Primitives, payload: seq<byte>, key: Bytes32) returns (r: Result<Text, Error>)
    ensures r == Decrypted(P, payload, key)
  {
    if |payload| == 0 || payload[0] == HASH { return Err(UnknownEncryptionVersion); }
    if |payload| < MIN_PAYLOAD || |payload| > MAX_PAYLOAD { return Err(InvalidPayloadSize); }
    var decoded := Base64.Decode(payload);
    if decoded.None? { return Err(Base64Failed); }
    var data := decoded.value;
    if |data| < MIN_DATA || |data| > MAX_DATA { return Err(InvalidDataSize); }
    if data[0] != VERSION { return Err(UnknownVersion); }
    var nonce: Bytes32 := data[1..33];
    var ciphertext := data[33..|data| - 32];
    var mac := data[|data| - 32..];
    var keys := GetMessageKeys(P, key, nonce);
    if P.hmac(keys.hmacKey, nonce + ciphertext) != mac { return Err(InvalidMac); }
    var padded := new byte[|ciphertext|](i requires 0 <= i < |ciphertext| => ciphertext[i]);
    assert padded[..] == ciphertext;
    ApplyKeystream(P, keys, padded);
    var plain := Unpad(padded[..]);
    if plain.Err? { return Err(plain.error); }
    if !IsUtf8(plain.value) { return Err(InvalidUtf8); }
    return Ok(plain.value);
  }

  // ---------------------------------------------------------------- the codec's laws

  /** Every framed buffer of an encryptable message passes both size gates. */
  lemma SizesPassTheGates(P: Primitives, key: Bytes32, nonce: Bytes32, m: seq<byte>)
    requires Encryptable(m)
    ensures |Frame(P, key, nonce, SpecBuffer(m))| == 67 + PaddedLen(|m|)
    ensures MIN_DATA <= 67 + PaddedLen(|m|) <= MAX_DATA
    ensures MIN_PAYLOAD <= |Base64.Encode(Frame(P, key, nonce, SpecBuffer(m)))| <= MAX_PAYLOAD
  {
    hide PaddedLen, LegacyPaddedLen, Frame, Base64.Encode, Buffer;
    PaddedRange(|m|);
    FrameSize(P, key, nonce, SpecBuffer(m));
  }

  lemma FrameSize(P: Primitives, key: Bytes32, nonce: Bytes32, buffer: seq<byte>)
    ensures |Frame(P, key, nonce, buffer)| == 65 + |buffer|
    ensures |Base64.Encode(Frame(P, key, nonce, buffer))| == 4 * ((67 + |buffer|) / 3)
  {
    EncodedSize(Frame(P, key, nonce, buffer));
  }

  lemma EncodedSize(data: seq<byte>)
    ensures |Base64.Encode(data)| == 4 * ((|data| + 2) / 3)
  {
  }

  /** Both gates are as tight as they can be. */
  lemma GateEndsAttained(P: Primitives, key: Bytes32, nonce: Bytes32, m: seq<byte>)
    requires |m| == MIN_PLAINTEXT_SIZE || |m| == MAX_PLAINTEXT_SIZE
    ensures |Frame(P, key, nonce, SpecBuffer(m))| ==
            if |m| == MIN_PLAINTEXT_SIZE then MIN_DATA else MAX_DATA
    ensures |Base64.Encode(Frame(P, key, nonce, SpecBuffer(m)))| ==
            if |m| == MIN_PLAINTEXT_SIZE then MIN_PAYLOAD else MAX_PAYLOAD
  {
    hide PaddedLen, LegacyPaddedLen, Frame, Base64.Encode, Buffer;
    PaddedRange(|m|);
    FrameSize(P, key, nonce, SpecBuffer(m));
  }

  lemma FrameFields(P: Primitives, key: Bytes32, nonce: Bytes32, buffer: seq<byte>)
    ensures var frame := Frame(P, key, nonce, buffer);
            var keys := GetMessageKeys(P, key, nonce);
            frame[0] == VERSION && frame[1..33] == nonce
            && frame[33..|frame| - 32] == Stream(P, keys, buffer)
            && frame[|frame| - 32..] == P.hmac(keys.hmacKey, nonce + Stream(P, keys, buffer))
  {
  }

  lemma FramePassesGate(frame: seq<byte>)
    requires MIN_DATA <= |frame| <= MAX_DATA && frame[0] == VERSION
    ensures Gate(Base64.Encode(frame)) == Ok(frame)
  {
    hide Base64.Encode, Base64.Decode;
    Base64.DecodeInvertsEncode(frame);
    FirstCharacter(frame);
  }

  /** A frame that is within the size gates is taken apart again into what it was built from. */
  lemma FrameOpens(P: Primitives, key: Bytes32, nonce: Bytes32, buffer: seq<byte>)
    requires MIN_DATA <= 65 + |buffer| <= MAX_DATA
    ensures Decrypted(P, Base64.Encode(Frame(P, key, nonce, buffer)), key) == AsText(Unpadded(buffer))
  {
    hide Frame, Gate, Stream, GetMessageKeys, Unpadded, AsText;
    FrameFields(P, key, nonce, buffer);
    StreamInvolution(P, GetMessageKeys(P, key, nonce), buffer);
    FramePassesGate(Frame(P, key, nonce, buffer));
  }

  lemma FirstCharacter(data: seq<byte>)
    requires |data| >= 3
    ensures Base64.IsAlphabet(Base64.Encode(data)[0])
  {
    hide Base64.Quad, Base64.IsAlphabet;
    Base64.QuadCodes(data[0], data[1], data[2]);
  }

  /** Decryption inverts encryption for every text of 1 to 65535 bytes, every key and every nonce. */
  lemma DecryptInvertsEncrypt(P: Primitives, text: Text, key: Bytes32, nonce: Bytes32)
    requires Encryptable(text)
    ensures Encrypted(P, text, key, nonce).Ok?
    ensures Decrypted(P, Encrypted(P, text, key, nonce).value, key) == Ok(text)
  {
    hide PaddedLen, LegacyPaddedLen;
    SizesPassTheGates(P, key, nonce, text);
    FrameOpens(P, key, nonce, SpecBuffer(text));
    UnpaddedExactly(SpecBuffer(text));
    assert Opens(SpecBuffer(text), text);
  }

  /** `payload` is `text` sealed under `nonce`, with the padding of today or the earlier one. */
  predicate Sealed(P: Primitives, payload: seq<byte>, key: Bytes32, nonce: Bytes32, text: seq<byte>) {
    IsUtf8(text) && Encryptable(text)
    && (payload == Base64.Encode(Frame(P, key, nonce, SpecBuffer(text)))
        || payload == Base64.Encode(Frame(P, key, nonce, LegacyBuffer(text))))
  }

  lemma SealedOpens(P: Primitives, payload: seq<byte>, key: Bytes32, nonce: Bytes32, text: seq<byte>)
    requires Sealed(P, payload, key, nonce, text)
    ensures Decrypted(P, payload, key) == Ok(text)
  {
    hide PaddedLen, LegacyPaddedLen;
    PaddedRange(|text|);
    LegacyCoversPlaintext(|text|);
    var buffer := if payload == Base64.Encode(Frame(P, key, nonce, SpecBuffer(text)))
                  then SpecBuffer(text) else LegacyBuffer(text);
    FrameOpens(P, key, nonce, buffer);
    UnpaddedExactly(buffer);
    assert Opens(buffer, text);
  }

  /** What decryption accepts was sealed: the payload is rebuilt, byte for byte, from its own
      nonce and the text. */
  lemma AcceptedIsSealed(P: Primitives, payload: seq<byte>, key: Bytes32) returns (nonce: Bytes32)
    requires Decrypted(P, payload, key).Ok?
    ensures nonce == Gate(payload).value[1..33]
    ensures Sealed(P, payload, key, nonce, Decrypted(P, payload, key).value)
  {
    hide Frame, OpenFrame, Base64.Encode, Base64.Decode;
    var data := Gate(payload).value;
    nonce := data[1..33];
    var buffer := FrameOfOpened(P, data, key);
    UnpaddedOpens(buffer);
    Base64.EncodeInvertsDecode(payload);
  }

  lemma FrameOfOpened(P: Primitives, data: seq<byte>, key: Bytes32) returns (buffer: seq<byte>)
    requires |data| >= MIN_DATA && data[0] == VERSION && OpenFrame(P, data, key).Ok?
    ensures data == Frame(P, key, data[1..33], buffer)
    ensures Unpadded(buffer) == OpenFrame(P, data, key)
  {
    hide GetMessageKeys, Stream, Unpadded;
    var nonce: Bytes32 := data[1..33];
    var ciphertext := data[33..|data| - 32];
    var keys := GetMessageKeys(P, key, nonce);
    buffer := Stream(P, keys, ciphertext);
    StreamInvolution(P, keys, ciphertext);
    assert data == [VERSION] + nonce + ciphertext + data[|data| - 32..];
  }

  /** Decryption accepts the sealed payloads of a text and nothing else. */
  lemma DecryptsExactlyTheSealed(P: Primitives, payload: seq<byte>, key: Bytes32, text: seq<byte>)
    ensures Decrypted(P, payload, key) == Ok(text)
            <==> exists nonce: Bytes32 :: Sealed(P, payload, key, nonce, text)
  {
    if Decrypted(P, payload, key) == Ok(text) {
      var nonce := AcceptedIsSealed(P, payload, key);
    }
    forall nonce: Bytes32 | Sealed(P, payload, key, nonce, text)
      ensures Decrypted(P, payload, key) == Ok(text)
    {
      SealedOpens(P, payload, key, nonce, text);
    }
  }

  /** Away from the eight divergent lengths an accepted payload is exactly what encryption writes
      for its text and nonce; at those lengths the shorter legacy payload is also accepted. */
  lemma AcceptedIsEncryptedExceptAtDivergentLengths(P: Primitives, payload: seq<byte>, key: Bytes32)
    requires Decrypted(P, payload, key).Ok?
    ensures var text := Decrypted(P, payload, key).value;
            var nonce := Gate(payload).value[1..33];
            Encrypted(P, text, key, nonce) == Ok(payload)
            || (Divergent(|text|) && payload == Base64.Encode(Frame(P, key, nonce, LegacyBuffer(text)))
                && |payload| < |Base64.Encode(Frame(P, key, nonce, SpecBuffer(text)))|)
  {
    hide PaddedLen, LegacyPaddedLen;
    var text := Decrypted(P, payload, key).value;
    var nonce := AcceptedIsSealed(P, payload, key);
    PaddingsDifferExactly(|text|);
    LegacyCoversPlaintext(|text|);
    if Encrypted(P, text, key, nonce) != Ok(payload) {
      assert Divergent(|text|);
      var k: nat :| k >= 8 && |text| - 1 == Pow2(k);
      LegacyAtPower(k);
      LegacySavesAChunk(k);
    }
  }

  lemma LegacySavesAChunk(k: nat)
    requires k >= 8
    ensures PaddedLen(Pow2(k) + 1) >= LegacyPaddedLen(Pow2(k) + 1) + 32
  {
    LegacyAtPower(k);
    SmallPowers();
    Pow2Monotone(5, k - 3);
    assert Pow2(k - 2) == 2 * Pow2(k - 3);
  }

  /** One key opens a payload to one text. */
  lemma SealedTextUnique(P: Primitives, payload: seq<byte>, key: Bytes32, n1: Bytes32, t1: seq<byte>,
                         n2: Bytes32, t2: seq<byte>)
    requires Sealed(P, payload, key, n1, t1) && Sealed(P, payload, key, n2, t2)
    ensures t1 == t2
  {
    SealedOpens(P, payload, key, n1, t1);
    SealedOpens(P, payload, key, n2, t2);
  }
}
