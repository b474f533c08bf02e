/** NIP-44 version 2 padded lengths: the power-of-two chunking that encryption uses, and the
    earlier chunking that decryption still accepts. */
module Padding {
  import opened Prelude

  const MIN_PLAINTEXT_SIZE := 1
  const MAX_PLAINTEXT_SIZE := 65535

  datatype LengthError = TooShort | TooLong

  function Pow2(k: nat): (p: nat)
    ensures p > 0
  {
    if k == 0 then 1 else 2 * Pow2(k - 1)
  }

  /** Position of the highest set bit. */
  function Log2(n: nat): (k: nat)
    requires n > 0
    ensures Pow2(k) <= n < Pow2(k + 1)
  {
    if n == 1 then 0 else Log2(n / 2) + 1
  }

  predicate IsPowerOfTwo(n: nat) {
    n > 0 && Pow2(Log2(n)) == n
  }

  /** `usize::next_power_of_two`: the least power of two that is not below `n`. */
  function NextPowerOfTwo(n: nat): (p: nat)
    ensures n <= p
    ensures exists k: nat :: p == Pow2(k)
    ensures forall k: nat :: n <= Pow2(k) ==> p <= Pow2(k)
  {
    if n <= 1 then
      assert Pow2(0) == 1;
      1
    else if IsPowerOfTwo(n) then n
    else
      var e := Log2(n) + 1;
      assert forall k: nat :: n <= Pow2(k) ==> Pow2(e) <= Pow2(k) by {
        forall k: nat | n <= Pow2(k) ensures Pow2(e) <= Pow2(k) {
          if k < e { Pow2Monotone(k, e - 1); } else { Pow2Monotone(e, k); }
        }
      }
      Pow2(e)
  }

  /** The chunk that a `nextPower` selects. */
  function Chunk(nextPower: nat): nat {
    if nextPower <= 256 then 32 else nextPower / 8
  }

  function RoundUp(n: nat, chunk: nat): nat
    requires chunk > 0
  {
    chunk * (n / chunk + 1)
  }

  /** The power of two strictly above `n`. */
  function StrictNextPower(n: nat): nat {
    if IsPowerOfTwo(n) then n * 2 else NextPowerOfTwo(n)
  }

  /** The padded length that encryption uses, with no cap on the length. */
  function PaddedLen(unpadded: nat): nat {
    if unpadded <= 32 then 32 else
      assert Chunk(StrictNextPower(unpadded - 1)) > 0 by { StrictNextPowerIs(unpadded - 1); }
      RoundUp(unpadded - 1, Chunk(StrictNextPower(unpadded - 1)))
  }

  /** The earlier padded length, kept so that old messages still open. */
  function LegacyPaddedLen(unpadded: nat): nat {
    if unpadded <= 32 then 32 else RoundUp(unpadded - 1, Chunk(NextPowerOfTwo(unpadded - 1)))
  }

  /** The padded length of what may be encrypted: room for the message, and never more than 65536. */
  function CalcPaddedLen(unpadded: nat): (r: Result<nat, LengthError>)
    ensures r.Ok? <==> MIN_PLAINTEXT_SIZE <= unpadded <= MAX_PLAINTEXT_SIZE
    ensures r.Ok? ==> unpadded <= r.value && 32 <= r.value <= 65536
  {
    if unpadded < MIN_PLAINTEXT_SIZE then Err(TooShort)
    else if unpadded > MAX_PLAINTEXT_SIZE then Err(TooLong)
    else
      PaddedCoversPlaintext(unpadded); PaddedRange(unpadded);
      Ok(PaddedLen(unpadded))
  }

  // ---------------------------------------------------------------- powers of two

  lemma {:induction false} Pow2Monotone(a: nat, b: nat)
    requires a <= b
    ensures Pow2(a) <= Pow2(b)
    ensures a < b ==> 2 * Pow2(a) <= Pow2(b)
  {
    if a < b { Pow2Monotone(a, b - 1); }
  }

  /** Only one octave holds `n`. */
  lemma Log2Unique(n: nat, k: nat)
    requires n > 0 && Pow2(k) <= n < Pow2(k + 1)
    ensures Log2(n) == k
  {
    var j := Log2(n);
    if j < k { Pow2Monotone(j + 1, k); } else if k < j { Pow2Monotone(k + 1, j); }
  }

  lemma Log2OfPow2(k: nat)
    ensures Log2(Pow2(k)) == k && IsPowerOfTwo(Pow2(k))
  {
    Log2Unique(Pow2(k), k);
  }

  lemma SmallPowers()
    ensures Pow2(5) == 32 && Pow2(6) == 64 && Pow2(7) == 128 && Pow2(8) == 256
    ensures Pow2(9) == 512 && Pow2(10) == 1024 && Pow2(11) == 2048 && Pow2(12) == 4096
    ensures Pow2(13) == 8192 && Pow2(14) == 16384 && Pow2(15) == 32768 && Pow2(16) == 65536
  {
    assert Pow2(3) == 8;
    assert Pow2(6) == 64;
    assert Pow2(9) == 512;
    assert Pow2(12) == 4096;
    assert Pow2(14) == 16384;
  }

  lemma StrictNextPowerIs(n: nat)
    requires n > 0
    ensures StrictNextPower(n) == Pow2(Log2(n) + 1) > n
  {
    if n == 1 { Log2OfPow2(0); }
  }

  lemma LegacyNextPowerIs(n: nat)
    requires n > 1
    ensures NextPowerOfTwo(n) == if IsPowerOfTwo(n) then n else Pow2(Log2(n) + 1)
  {
  }

  // ---------------------------------------------------------------- rounding up

  lemma DivBounds(n: nat, c: nat)
    requires c > 0
    ensures c * (n / c) <= n < c * (n / c + 1)
  {
  }

  lemma DivUnique(n: nat, c: nat, q: nat)
    requires c > 0 && c * q <= n < c * (q + 1)
    ensures n / c == q
  {
    var d := n / c;
    DivBounds(n, c);
    if d < q {
      MulMonotone(c, d + 1, q);
    } else if q < d {
      MulMonotone(c, q + 1, d);
    }
  }

  lemma MulMonotone(c: nat, a: nat, b: nat)
    requires a <= b
    ensures c * a <= c * b
  {
  }

  /** The chunk used at `unpadded > 32`, and the octave that it divides in eight (or, below 256,
      in pieces of 32). */
  lemma ChunkOf(unpadded: nat) returns (k: nat, c: nat)
    requires unpadded > 32
    ensures k == Log2(unpadded - 1) && k >= 5
    ensures c == Chunk(StrictNextPower(unpadded - 1)) > 0
    ensures k <= 7 ==> c == 32
    ensures k >= 7 ==> c == Pow2(k - 2) && Pow2(k) == 4 * c && Pow2(k + 1) == 8 * c
    ensures PaddedLen(unpadded) == RoundUp(unpadded - 1, c)
  {
    SmallPowers();
    k := Log2(unpadded - 1);
    StrictNextPowerIs(unpadded - 1);
    c := Chunk(StrictNextPower(unpadded - 1));
    if k < 5 { Pow2Monotone(k + 1, 5); }
    if k <= 7 { Pow2Monotone(k + 1, 8); } else { Pow2Monotone(9, k + 1); }
    if k >= 7 { assert Pow2(k + 1) == 2 * Pow2(k) == 4 * Pow2(k - 1) == 8 * Pow2(k - 2); }
  }

  lemma PaddedStaysInOctave(unpadded: nat)
    requires unpadded > 32
    ensures PaddedLen(unpadded) >= unpadded
    ensures PaddedLen(unpadded) <= Pow2(Log2(unpadded - 1) + 1) || PaddedLen(unpadded) <= 256
    ensures Log2(unpadded - 1) >= 8 ==> PaddedLen(unpadded) <= Pow2(Log2(unpadded - 1) + 1)
  {
    hide PaddedLen, Chunk, StrictNextPower, Log2, Pow2;
    var k, c := ChunkOf(unpadded);
    DivBounds(unpadded - 1, c);
    SmallPowers();
    if k <= 7 { Pow2Monotone(k + 1, 8); }
    RoundUpWithin(unpadded - 1, c, 8);
  }

  lemma RoundUpWithin(n: nat, c: nat, m: nat)
    requires c > 0 && n < c * m
    ensures n < RoundUp(n, c) <= c * m
  {
    DivBounds(n, c);
    if n / c >= m { MulMonotone(c, m, n / c); }
    MulMonotone(c, n / c + 1, m);
  }

  // ---------------------------------------------------------------- laws of the padded length

  lemma PaddedCoversPlaintext(unpadded: nat)
    ensures PaddedLen(unpadded) >= unpadded && PaddedLen(unpadded) >= 32
  {
    if unpadded > 32 { PaddedStaysInOctave(unpadded); }
  }

  lemma PaddedMonotone(a: nat, b: nat)
    requires a <= b
    ensures PaddedLen(a) <= PaddedLen(b)
  {
    hide RoundUp, Chunk, Log2, Pow2;
    PaddedCoversPlaintext(b);
    if a > 32 {
      Log2Monotone(a - 1, b - 1);
      if Log2(a - 1) == Log2(b - 1) || Log2(b - 1) <= 7 {
        MonotoneInOctave(a, b);
      } else {
        MonotoneAcrossOctaves(a, b);
      }
    }
  }

  lemma Log2Monotone(a: nat, b: nat)
    requires 0 < a <= b
    ensures Log2(a) <= Log2(b)
  {
    if Log2(b) < Log2(a) { Pow2Monotone(Log2(b) + 1, Log2(a)); }
  }

  lemma MonotoneInOctave(a: nat, b: nat)
    requires 32 < a <= b
    requires Log2(a - 1) == Log2(b - 1) || (Log2(a - 1) <= 7 && Log2(b - 1) <= 7)
    ensures PaddedLen(a) <= PaddedLen(b)
  {
    hide PaddedLen, RoundUp, Chunk, StrictNextPower, Log2, Pow2;
    var ka, ca := ChunkOf(a);
    var kb, cb := ChunkOf(b);
    assert ca == cb;
    RoundUpMonotone(a - 1, b - 1, ca);
  }

  lemma MonotoneAcrossOctaves(a: nat, b: nat)
    requires 32 < a <= b
    requires Log2(a - 1) < Log2(b - 1) && Log2(b - 1) >= 8
    ensures PaddedLen(a) < b
  {
    hide PaddedLen, RoundUp, Chunk, StrictNextPower, Log2, Pow2;
    var ka, kb := Log2(a - 1), Log2(b - 1);
    SmallPowers();
    PaddedStaysInOctave(a);
    Pow2Monotone(ka + 1, kb);
    Pow2Monotone(8, kb);
  }

  lemma RoundUpMonotone(a: nat, b: nat, c: nat)
    requires a <= b && c > 0
    ensures RoundUp(a, c) <= RoundUp(b, c)
  {
    DivMonotone(a, b, c);
    MulMonotone(c, a / c + 1, b / c + 1);
  }

  lemma MulSuccessor(c: nat, q: nat)
    ensures c * (q + 1) == c * q + c
  {
  }

  lemma RoundUpAgain(p: nat, c: nat, q: nat)
    requires c > 0 && p == c * (q + 1)
    ensures p > 0 && RoundUp(p - 1, c) == p
  {
    MulSuccessor(c, q);
    DivUnique(p - 1, c, q);
  }

  lemma DivMonotone(a: nat, b: nat, c: nat)
    requires a <= b && c > 0
    ensures a / c <= b / c
  {
    DivBounds(a, c);
    DivBounds(b, c);
    if b / c < a / c { MulMonotone(c, b / c + 1, a / c); }
  }

  lemma PaddedIdempotent(unpadded: nat)
    ensures PaddedLen(PaddedLen(unpadded)) == PaddedLen(unpadded)
  {
    if unpadded > 32 {
      var p, c, q := PaddedIsMultiple(unpadded);
      MultipleIsFixed(p, c, q);
    }
  }

  lemma PaddedIsMultiple(unpadded: nat) returns (p: nat, c: nat, q: nat)
    requires unpadded > 32
    ensures p == PaddedLen(unpadded) > 32 && c > 0 && p == c * (q + 1)
    ensures c == OctaveChunk(Log2(p - 1))
  {
    PaddedSharesChunk(unpadded);
    p, c, q := ChunkTimesCount(unpadded);
  }

  function OctaveChunk(k: nat): nat {
    if k <= 7 then 32 else Pow2(k - 2)
  }

  lemma ChunkTimesCount(unpadded: nat) returns (p: nat, c: nat, q: nat)
    requires unpadded > 32
    ensures p == PaddedLen(unpadded) && c > 0 && p == c * (q + 1)
    ensures c == OctaveChunk(Log2(unpadded - 1))
  {
    var k;
    k, c := ChunkOf(unpadded);
    p, q := CountOf(unpadded - 1, c);
  }

  lemma CountOf(n: nat, c: nat) returns (p: nat, q: nat)
    requires c > 0
    ensures p == RoundUp(n, c) == c * (q + 1)
  {
    p, q := RoundUp(n, c), n / c;
  }

  /** A multiple of its own chunk is already padded. */
  lemma MultipleIsFixed(p: nat, c: nat, q: nat)
    requires p > 32 && c > 0 && p == c * (q + 1)
    requires c == OctaveChunk(Log2(p - 1))
    ensures PaddedLen(p) == p
  {
    var _, c' := ChunkOf(p);
    RoundUpAgain(p, c, q);
  }

  lemma PaddedSharesChunk(unpadded: nat)
    requires unpadded > 32
    ensures PaddedLen(unpadded) > 32
    ensures OctaveChunk(Log2(PaddedLen(unpadded) - 1)) == OctaveChunk(Log2(unpadded - 1))
  {
    hide PaddedLen, OctaveChunk, Log2, Pow2;
    PaddedStaysInOctave(unpadded);
    SharesChunk(unpadded - 1, PaddedLen(unpadded) - 1);
  }

  lemma SharesChunk(n: nat, m: nat)
    requires 0 < n <= m && (m < Pow2(Log2(n) + 1) || m < 256)
    requires Log2(n) >= 8 ==> m < Pow2(Log2(n) + 1)
    ensures OctaveChunk(Log2(m)) == OctaveChunk(Log2(n))
  {
    if Log2(n) >= 8 {
      Log2Unique(m, Log2(n));
    } else {
      LowOctave(n);
      LowOctave(m);
      SmallPowers();
      Pow2Monotone(Log2(n) + 1, 8);
    }
  }

  lemma LowOctave(n: nat)
    requires n > 0
    ensures Log2(n) <= 7 <==> n < 256
  {
    SmallPowers();
    if Log2(n) <= 7 { Pow2Monotone(Log2(n) + 1, 8); } else { Pow2Monotone(8, Log2(n)); }
  }

  /** Above 256 the overhead stays strictly below a quarter of `unpadded - 1`. */
  lemma PaddingOverheadBound(unpadded: nat)
    requires unpadded > 256
    ensures 4 * (PaddedLen(unpadded) - unpadded) < unpadded - 1
  {
    var k, c := ChunkOf(unpadded);
    DivBounds(unpadded - 1, c);
    SmallPowers();
    if k <= 7 { Pow2Monotone(k + 1, 8); assert false; }
  }

  /** The chunk of a length, as the standard has it: 32 up to 256, and above that an eighth of the power of
      two above the length less one. */
  ghost predicate ChunkIs(unpadded: nat, c: nat) {
    if unpadded <= 256 then c == 32
    else exists k: nat :: Pow2(k) <= unpadded - 1 < Pow2(k + 1) && 8 * c == Pow2(k + 1)
  }

  /** The padded length is the least multiple of the chunk that has room for a message. */
  lemma PaddedIsLeastMultiple(unpadded: nat, c: nat)
    requires unpadded > 0 && ChunkIs(unpadded, c)
    ensures c > 0 && PaddedLen(unpadded) % c == 0
    ensures unpadded <= PaddedLen(unpadded) < unpadded + c
  {
    hide RoundUp, ChunkIs;
    if unpadded > 32 {
      ChunkIsUsed(unpadded, c);
      RoundUpIsLeastMultiple(unpadded - 1, c);
    } else {
      UpTo32(unpadded, c);
    }
  }

  lemma UpTo32(unpadded: nat, c: nat)
    requires unpadded <= 32 && ChunkIs(unpadded, c)
    ensures c == 32 && PaddedLen(unpadded) == 32
  {
  }

  lemma ChunkIsUsed(unpadded: nat, c: nat)
    requires unpadded > 32 && ChunkIs(unpadded, c)
    ensures c > 0 && PaddedLen(unpadded) == RoundUp(unpadded - 1, c)
  {
    hide RoundUp, PaddedLen, Chunk, StrictNextPower, NextPowerOfTwo, Log2, Pow2;
    SmallPowers();
    var k, d := ChunkOf(unpadded);
    if unpadded <= 256 {
      if k >= 8 { Pow2Monotone(8, k); assert false; }
    } else {
      var m: nat :| Pow2(m) <= unpadded - 1 < Pow2(m + 1) && 8 * c == Pow2(m + 1);
      Log2Unique(unpadded - 1, m);
      if k <= 7 { Pow2Monotone(k + 1, 8); assert false; }
    }
  }

  lemma RoundUpIsLeastMultiple(n: nat, c: nat)
    requires c > 0
    ensures RoundUp(n, c) % c == 0 && n < RoundUp(n, c) <= n + c
  {
    var q := n / c;
    DivBounds(n, c);
    MulSuccessor(c, q);
    MultipleOf(c, q + 1);
  }

  lemma MultipleOf(c: nat, q: nat)
    requires c > 0
    ensures c * q % c == 0
  {
    DivUnique(c * q, c, q);
  }

  // ---------------------------------------------------------------- spec against legacy

  ghost predicate Divergent(unpadded: nat) {
    exists k: nat {:trigger Pow2(k)} :: k >= 8 && unpadded - 1 == Pow2(k)
  }

  lemma LegacyAtPower(k: nat)
    requires k >= 8
    ensures PaddedLen(Pow2(k) + 1) == 5 * Pow2(k - 2)
    ensures LegacyPaddedLen(Pow2(k) + 1) == 9 * Pow2(k - 3)
    ensures LegacyPaddedLen(Pow2(k) + 1) < PaddedLen(Pow2(k) + 1)
  {
    hide PaddedLen, LegacyPaddedLen;
    SpecLenAtPower(k);
    LegacyLenAtPower(k);
    PowerSplits(k);
  }

  lemma PowerSplits(k: nat)
    requires k >= 8
    ensures Pow2(k) == 4 * Pow2(k - 2) == 8 * Pow2(k - 3) >= 256
  {
    SmallPowers();
    Pow2Monotone(8, k);
    assert Pow2(k) == 2 * Pow2(k - 1) == 4 * Pow2(k - 2);
  }

  lemma SpecLenAtPower(k: nat)
    requires k >= 8
    ensures PaddedLen(Pow2(k) + 1) == 5 * Pow2(k - 2)
  {
    hide PaddedLen, Chunk, StrictNextPower, Log2, Pow2;
    PowerSplits(k);
    Log2OfPow2(k);
    var _, c := ChunkOf(Pow2(k) + 1);
    RoundUpMultiple(c, 4);
  }

  lemma LegacyLenAtPower(k: nat)
    requires k >= 8
    ensures LegacyPaddedLen(Pow2(k) + 1) == 9 * Pow2(k - 3)
  {
    hide RoundUp, Log2, Pow2;
    PowerSplits(k);
    Log2OfPow2(k);
    var c := Pow2(k - 3);
    LegacyNextPowerIs(Pow2(k));
    RoundUpMultiple(c, 8);
  }

  lemma RoundUpMultiple(c: nat, q: nat)
    requires c > 0
    ensures RoundUp(c * q, c) == c * (q + 1)
  {
    MulSuccessor(c, q);
    DivUnique(c * q, c, q);
  }

  /** The two paddings differ exactly where `unpadded - 1` is a power of two not below 256. */
  lemma PaddingsDifferExactly(unpadded: nat)
    ensures PaddedLen(unpadded) != LegacyPaddedLen(unpadded) <==> Divergent(unpadded)
  {
    hide PaddedLen, LegacyPaddedLen, Log2;
    if Divergent(unpadded) {
      var k: nat :| k >= 8 && unpadded - 1 == Pow2(k);
      LegacyAtPower(k);
    } else {
      NoDifference(unpadded);
    }
  }

  lemma NoDifference(unpadded: nat)
    requires !Divergent(unpadded)
    ensures PaddedLen(unpadded) == LegacyPaddedLen(unpadded)
  {
    hide RoundUp, Log2, NextPowerOfTwo;
    if unpadded > 32 { SameChunk(unpadded - 1); }
  }

  lemma SameChunk(n: nat)
    requires n >= 32 && !Divergent(n + 1)
    ensures Chunk(StrictNextPower(n)) == Chunk(NextPowerOfTwo(n))
  {
    hide Log2, Pow2;
    if IsPowerOfTwo(n) {
      SmallPowers();
      var k := Log2(n);
      assert n == Pow2(k);
      if k < 8 { Pow2Monotone(k + 1, 8); }
      StrictNextPowerIs(n);
      LegacyNextPowerIs(n);
    }
  }

  /** Under the 65535-byte cap that gives eight lengths. */
  lemma EightDivergentLengths(unpadded: nat)
    requires unpadded <= MAX_PLAINTEXT_SIZE
    ensures Divergent(unpadded) <==>
            unpadded in {257, 513, 1025, 2049, 4097, 8193, 16385, 32769}
  {
    SmallPowers();
    if Divergent(unpadded) {
      var k: nat :| k >= 8 && unpadded - 1 == Pow2(k);
      if k >= 16 { Pow2Monotone(16, k); assert false; }
      assert k in {8, 9, 10, 11, 12, 13, 14, 15};
    } else {
      assert unpadded - 1 != Pow2(8) && unpadded - 1 != Pow2(9) && unpadded - 1 != Pow2(10);
      assert unpadded - 1 != Pow2(11) && unpadded - 1 != Pow2(12) && unpadded - 1 != Pow2(13);
      assert unpadded - 1 != Pow2(14) && unpadded - 1 != Pow2(15);
    }
  }

  lemma LegacyCoversPlaintext(unpadded: nat)
    ensures LegacyPaddedLen(unpadded) >= unpadded
    ensures 32 <= LegacyPaddedLen(unpadded) <= PaddedLen(unpadded)
  {
    PaddedCoversPlaintext(unpadded);
    PaddingsDifferExactly(unpadded);
    if Divergent(unpadded) {
      var k: nat :| k >= 8 && unpadded - 1 == Pow2(k);
      LegacyAtPower(k);
      SmallPowers();
      Pow2Monotone(8, k);
      assert Pow2(k) == 2 * Pow2(k - 1) == 4 * Pow2(k - 2) == 8 * Pow2(k - 3);
    }
  }

  /** Every length that may be encrypted pads to between 32 and 65536 bytes, both attained. */
  lemma PaddedRange(unpadded: nat)
    requires MIN_PLAINTEXT_SIZE <= unpadded <= MAX_PLAINTEXT_SIZE
    ensures 32 <= PaddedLen(unpadded) <= 65536
    ensures PaddedLen(MIN_PLAINTEXT_SIZE) == 32 && PaddedLen(MAX_PLAINTEXT_SIZE) == 65536
  {
    PaddedCoversPlaintext(unpadded);
    PaddedMonotone(unpadded, MAX_PLAINTEXT_SIZE);
    SmallPowers();
    Log2Unique(65534, 15);
    PaddedStaysInOctave(MAX_PLAINTEXT_SIZE);
    var k, c := ChunkOf(MAX_PLAINTEXT_SIZE);
    assert c == 8192;
  }
}
