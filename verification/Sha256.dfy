/** SHA-256 as section 5 and 6 of FIPS 180-4 define it, on whole messages. */
module Sha256 {
  import opened Prelude
  import opened Bits

  type Word = bv32

  const BLOCK: nat := 64

  // the round constants, in eight rows
  const K0: seq<Word> :=
    [0x428a2f98, 0x71374491, 0xb5c0fbcf, 0xe9b5dba5, 0x3956c25b, 0x59f111f1, 0x923f82a4, 0xab1c5ed5]
  const K1: seq<Word> :=
    [0xd807aa98, 0x12835b01, 0x243185be, 0x550c7dc3, 0x72be5d74, 0x80deb1fe, 0x9bdc06a7, 0xc19bf174]
  const K2: seq<Word> :=
    [0xe49b69c1, 0xefbe4786, 0x0fc19dc6, 0x240ca1cc, 0x2de92c6f, 0x4a7484aa, 0x5cb0a9dc, 0x76f988da]
  const K3: seq<Word> :=
    [0x983e5152, 0xa831c66d, 0xb00327c8, 0xbf597fc7, 0xc6e00bf3, 0xd5a79147, 0x06ca6351, 0x14292967]
  const K4: seq<Word> :=
    [0x27b70a85, 0x2e1b2138, 0x4d2c6dfc, 0x53380d13, 0x650a7354, 0x766a0abb, 0x81c2c92e, 0x92722c85]
  const K5: seq<Word> :=
    [0xa2bfe8a1, 0xa81a664b, 0xc24b8b70, 0xc76c51a3, 0xd192e819, 0xd6990624, 0xf40e3585, 0x106aa070]
  const K6: seq<Word> :=
    [0x19a4c116, 0x1e376c08, 0x2748774c, 0x34b0bcb5, 0x391c0cb3, 0x4ed8aa4a, 0x5b9cca4f, 0x682e6ff3]
  const K7: seq<Word> :=
    [0x748f82ee, 0x78a5636f, 0x84c87814, 0x8cc70208, 0x90befffa, 0xa4506ceb, 0xbef9a3f7, 0xc67178f2]

  const K: seq<Word> := K0 + K1 + K2 + K3 + K4 + K5 + K6 + K7

  datatype State = State(a: Word, b: Word, c: Word, d: Word, e: Word, f: Word, g: Word, h: Word)

  const INITIAL: State := State(0x6a09e667, 0xbb67ae85, 0x3c6ef372, 0xa54ff53a,
      0x510e527f, 0x9b05688c, 0x1f83d9ab, 0x5be0cd19)

  /** Addition modulo 2^32. */
  function Plus(x: Word, y: Word): Word {
    x + y
  }

  function Rotr(x: Word, n: Word): Word
    requires 0 < n < 32
  {
    (x >> n) | (x << (32 - n))
  }

  function ShiftRight(x: Word, n: Word): Word
    requires 0 < n < 32
  {
    x >> n
  }

  function Xor(x: Word, y: Word): Word {
    x ^ y
  }

  function SmallSigma0(x: Word): Word {
    Xor(Xor(Rotr(x, 7), Rotr(x, 18)), ShiftRight(x, 3))
  }

  function SmallSigma1(x: Word): Word {
    Xor(Xor(Rotr(x, 17), Rotr(x, 19)), ShiftRight(x, 10))
  }

  function BigSigma0(x: Word): Word {
    Xor(Xor(Rotr(x, 2), Rotr(x, 13)), Rotr(x, 22))
  }

  function BigSigma1(x: Word): Word {
    Xor(Xor(Rotr(x, 6), Rotr(x, 11)), Rotr(x, 25))
  }

  function Ch(x: Word, y: Word, z: Word): Word {
    (x & y) ^ (!x & z)
  }

  function Maj(x: Word, y: Word, z: Word): Word {
    (x & y) ^ (x & z) ^ (y & z)
  }

  /** Four bytes, most significant first. */
  function WordAt(block: seq<byte>, t: nat): Word
    requires 4 * t + 3 < |block|
  {
    ((block[4 * t] as Word) << 24) | ((block[4 * t + 1] as Word) << 16) |
    ((block[4 * t + 2] as Word) << 8) | (block[4 * t + 3] as Word)
  }

  /** The message schedule. */
  function Schedule(block: seq<byte>, t: nat): Word
    requires |block| == BLOCK && t < 64
  {
    if t < 16 then WordAt(block, t)
    else Plus(Plus(Plus(Schedule(block, t - 16), SmallSigma0(Schedule(block, t - 15))), Schedule(block, t - 7)),
              SmallSigma1(Schedule(block, t - 2)))
  }

  function Round(s: State, k: Word, w: Word): State {
    var t1 := Plus(Plus(Plus(Plus(s.h, BigSigma1(s.e)), Ch(s.e, s.f, s.g)), k), w);
    var t2 := Plus(BigSigma0(s.a), Maj(s.a, s.b, s.c));
    State(Plus(t1, t2), s.a, s.b, s.c, Plus(s.d, t1), s.e, s.f, s.g)
  }

  function Rounds(s: State, block: seq<byte>, n: nat): State
    requires |block| == BLOCK && n <= 64
  {
    if n == 0 then s else Round(Rounds(s, block, n - 1), K[n - 1], Schedule(block, n - 1))
  }

  function AddStates(s: State, r: State): State {
    State(Plus(s.a, r.a), Plus(s.b, r.b), Plus(s.c, r.c), Plus(s.d, r.d),
          Plus(s.e, r.e), Plus(s.f, r.f), Plus(s.g, r.g), Plus(s.h, r.h))
  }

  function Compress(s: State, block: seq<byte>): State
    requires |block| == BLOCK
  {
    var r := Rounds(s, block, 64);
    AddStates(s, r)
  }

  // ---- padding and parsing ----

  function BigEndian(v: nat, n: nat): (bytes: seq<byte>)
    ensures |bytes| == n
  {
    if n == 0 then [] else BigEndian(v / 256, n - 1) + [(v % 256) as byte]
  }

  const TWO64: nat := 0x1_0000_0000_0000_0000

  /** What a count of 64 bits keeps. */
  function Low64(n: nat): (r: nat)
    ensures r < TWO64
  {
    n % TWO64
  }

  /** The zero bytes between the mark and the length. */
  function PadZeros(len: nat): (k: nat)
    ensures k < 64 && (len + 1 + k) % 64 == 56
  {
    (119 - len % 64) % 64
  }

  /** Section 5.1.1, for messages of whole bytes: a one bit, zeros, and the length in bits as 64 bits. */
  function Padded(msg: seq<byte>): (p: seq<byte>)
    ensures |p| % BLOCK == 0
  {
    msg + [0x80] + Zeros(PadZeros(|msg|)) + BigEndian(Low64(8 * |msg|), 8)
  }

  /** Section 5.2.1: the state after all whole blocks of the data. */
  function Absorb(data: seq<byte>): State
    requires |data| % BLOCK == 0
    decreases |data|
  {
    if |data| < BLOCK then INITIAL
    else
      var n := |data| - BLOCK;
      Compress(Absorb(data[..n]), data[n..])
  }

  function WordBytes(w: Word): (b: seq<byte>)
    ensures |b| == 4
  {
    [((w >> 24) & 0xFF) as byte, ((w >> 16) & 0xFF) as byte, ((w >> 8) & 0xFF) as byte, (w & 0xFF) as byte]
  }

  function Digest(s: State): (d: seq<byte>)
    ensures |d| == 32
  {
    WordBytes(s.a) + WordBytes(s.b) + WordBytes(s.c) + WordBytes(s.d) +
    WordBytes(s.e) + WordBytes(s.f) + WordBytes(s.g) + WordBytes(s.h)
  }

  function Hash(msg: seq<byte>): seq<byte> {
    Digest(Absorb(Padded(msg)))
  }

  // ---- the length field ----

  lemma {:induction false} BigEndianAt(v: nat, n: nat, i: nat)
    requires i < n
    ensures BigEndian(v, n)[i] == Shr(v, 8 * (n - 1 - i)) % 256
  {
    if i < n - 1 {
      BigEndianAt(v / 256, n - 1, i);
      ShrByte(v, 8 * (n - 2 - i));
    }
  }

  lemma ShrByte(v: nat, k: nat)
    ensures Shr(v, k + 8) == Shr(v / 256, k)
    decreases k
  {
    ShrAdd(v, 8, k);
    ShrEight(v);
  }

  lemma {:induction false} ShrAdd(v: nat, j: nat, k: nat)
    ensures Shr(v, j + k) == Shr(Shr(v, j), k)
  {
    if j > 0 { ShrAdd(v / 2, j - 1, k); }
  }

  lemma ShrEight(v: nat)
    ensures Shr(v, 8) == v / 256
  {
    var lo := SplitLow(v, 8);
    ShlMul(Shr(v, 8), 8);
    assert Pow2(8) == 256;
  }

  function FromBigEndian(bytes: seq<byte>): nat {
    if bytes == [] then 0 else 256 * FromBigEndian(bytes[..|bytes| - 1]) + bytes[|bytes| - 1]
  }

  lemma {:induction false} BigEndianRoundTrip(v: nat, n: nat)
    requires v < Pow2(8 * n)
    ensures FromBigEndian(BigEndian(v, n)) == v
  {
    if n > 0 {
      Pow2Eight(n - 1);
      BigEndianRoundTrip(v / 256, n - 1);
      assert BigEndian(v, n)[..n - 1] == BigEndian(v / 256, n - 1);
    }
  }

  lemma Pow2Eight(n: nat)
    ensures Pow2(8 * n + 8) == 256 * Pow2(8 * n)
  {
    var k := 8 * n;
    assert Pow2(k + 2) == 4 * Pow2(k);
    assert Pow2(k + 4) == 16 * Pow2(k);
    assert Pow2(k + 6) == 64 * Pow2(k);
  }

  /** Below 2^61 bytes the last eight bytes say how many bits the message has. */
  lemma LengthField(msg: seq<byte>)
    requires |msg| < 0x2000_0000_0000_0000
    ensures |Padded(msg)| >= 8 && FromBigEndian(Padded(msg)[|Padded(msg)| - 8..]) == 8 * |msg|
  {
    var v := Low64(8 * |msg|);
    assert v == 8 * |msg|;
    Pow2Wide();
    BigEndianRoundTrip(v, 8);
    assert Padded(msg)[|Padded(msg)| - 8..] == BigEndian(v, 8);
  }

  lemma Pow2Wide()
    ensures Pow2(64) == TWO64
  {
    Pow2Values();
    assert Pow2(16) == 65536;
    Pow2Add(16, 16);
    Pow2Add(32, 32);
  }

  /** The padding can be undone: the message is what is before the last mark. */
  lemma PaddingInjective(m1: seq<byte>, m2: seq<byte>)
    requires |m1| < 0x2000_0000_0000_0000 && |m2| < 0x2000_0000_0000_0000
    requires Padded(m1) == Padded(m2)
    ensures m1 == m2
  {
    LengthField(m1);
    LengthField(m2);
    assert Padded(m1)[..|m1|] == m1 && Padded(m2)[..|m2|] == m2;
  }
}
