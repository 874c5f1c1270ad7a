/** The digests of three messages that are known: the empty one, and the two examples of FIPS 180-4 for SHA-256. */
module Sha256Known {
  import opened Prelude
  import opened Sha256

  /** Eight words of a schedule, or eight constants. */
  datatype Eight = Eight(w0: Word, w1: Word, w2: Word, w3: Word, w4: Word, w5: Word, w6: Word, w7: Word)

  // ---- rounds and schedules on known words ----

  lemma RotrForm(x: Word)
    ensures Rotr(x, 2) == (x >> 2) | (x << 30) && Rotr(x, 6) == (x >> 6) | (x << 26)
    ensures Rotr(x, 7) == (x >> 7) | (x << 25) && Rotr(x, 11) == (x >> 11) | (x << 21)
    ensures Rotr(x, 13) == (x >> 13) | (x << 19) && Rotr(x, 17) == (x >> 17) | (x << 15)
    ensures Rotr(x, 18) == (x >> 18) | (x << 14) && Rotr(x, 19) == (x >> 19) | (x << 13)
    ensures Rotr(x, 22) == (x >> 22) | (x << 10) && Rotr(x, 25) == (x >> 25) | (x << 7)
    ensures ShiftRight(x, 3) == x >> 3 && ShiftRight(x, 10) == x >> 10
  {
  }

  /** The rotations written out, as the solver computes with them. */
  lemma BigForms()
    ensures forall x {:trigger BigSigma0(x)} :: BigSigma0(x) ==
              Xor(Xor((x >> 2) | (x << 30), (x >> 13) | (x << 19)), (x >> 22) | (x << 10))
    ensures forall x {:trigger BigSigma1(x)} :: BigSigma1(x) ==
              Xor(Xor((x >> 6) | (x << 26), (x >> 11) | (x << 21)), (x >> 25) | (x << 7))
  {
    hide Xor, Rotr;
    forall x
      ensures BigSigma0(x) == Xor(Xor((x >> 2) | (x << 30), (x >> 13) | (x << 19)), (x >> 22) | (x << 10))
      ensures BigSigma1(x) == Xor(Xor((x >> 6) | (x << 26), (x >> 11) | (x << 21)), (x >> 25) | (x << 7))
    {
      RotrForm(x);
    }
  }

  lemma SmallForms()
    ensures forall x {:trigger SmallSigma0(x)} :: SmallSigma0(x) ==
              Xor(Xor((x >> 7) | (x << 25), (x >> 18) | (x << 14)), x >> 3)
    ensures forall x {:trigger SmallSigma1(x)} :: SmallSigma1(x) ==
              Xor(Xor((x >> 17) | (x << 15), (x >> 19) | (x << 13)), x >> 10)
  {
    hide Xor, Rotr, ShiftRight;
    forall x
      ensures SmallSigma0(x) == Xor(Xor((x >> 7) | (x << 25), (x >> 18) | (x << 14)), x >> 3)
      ensures SmallSigma1(x) == Xor(Xor((x >> 17) | (x << 15), (x >> 19) | (x << 13)), x >> 10)
    {
      RotrForm(x);
    }
  }

  /** Four rounds replace all eight words, so that the states between are known from the first and the last. */
  predicate Four(s: State, t: State, k0: Word, k1: Word, k2: Word, k3: Word, w0: Word, w1: Word, w2: Word, w3: Word) {
    var s1 := State(t.d, s.a, s.b, s.c, t.h, s.e, s.f, s.g);
    var s2 := State(t.c, t.d, s.a, s.b, t.g, t.h, s.e, s.f);
    var s3 := State(t.b, t.c, t.d, s.a, t.f, t.g, t.h, s.e);
    Round(s, k0, w0) == s1 && Round(s1, k1, w1) == s2 && Round(s2, k2, w2) == s3 && Round(s3, k3, w3) == t
  }

  predicate Turns(s: State, m: State, t: State, k: Eight, w: Eight) {
    && Four(s, m, k.w0, k.w1, k.w2, k.w3, w.w0, w.w1, w.w2, w.w3)
    && Four(m, t, k.w4, k.w5, k.w6, k.w7, w.w4, w.w5, w.w6, w.w7)
  }

  function Sum(a: Word, b: Word, c: Word, d: Word): Word {
    Plus(Plus(Plus(a, SmallSigma0(b)), c), SmallSigma1(d))
  }

  /** The eight words of a schedule behind the sixteen. */
  predicate Extends(p: Eight, q: Eight, r: Eight) {
    && r.w0 == Sum(p.w0, p.w1, q.w1, q.w6) && r.w1 == Sum(p.w1, p.w2, q.w2, q.w7)
    && r.w2 == Sum(p.w2, p.w3, q.w3, r.w0) && r.w3 == Sum(p.w3, p.w4, q.w4, r.w1)
    && r.w4 == Sum(p.w4, p.w5, q.w5, r.w2) && r.w5 == Sum(p.w5, p.w6, q.w6, r.w3)
    && r.w6 == Sum(p.w6, p.w7, q.w7, r.w4) && r.w7 == Sum(p.w7, q.w0, r.w0, r.w5)
  }

  function Words(block: seq<byte>, t: nat): Eight
    requires |block| == BLOCK && t + 8 <= 64
  {
    Eight(Schedule(block, t), Schedule(block, t + 1), Schedule(block, t + 2), Schedule(block, t + 3),
          Schedule(block, t + 4), Schedule(block, t + 5), Schedule(block, t + 6), Schedule(block, t + 7))
  }

  lemma NextWord(block: seq<byte>, t: nat)
    requires |block| == BLOCK && 16 <= t < 64
    ensures Schedule(block, t) ==
      Sum(Schedule(block, t - 16), Schedule(block, t - 15), Schedule(block, t - 7), Schedule(block, t - 2))
  {
  }

  lemma NextWords(block: seq<byte>, t: nat, p: Eight, q: Eight, r: Eight)
    requires |block| == BLOCK && t + 24 <= 64
    requires Words(block, t) == p && Words(block, t + 8) == q && Extends(p, q, r)
    ensures Words(block, t + 16) == r
  {
    hide Schedule, Sum;
    NextWord(block, t + 16);
    NextWord(block, t + 17);
    NextWord(block, t + 18);
    NextWord(block, t + 19);
    NextWord(block, t + 20);
    NextWord(block, t + 21);
    NextWord(block, t + 22);
    NextWord(block, t + 23);
  }

  lemma AllWords(block: seq<byte>, w0: Eight, w1: Eight, w2: Eight, w3: Eight, w4: Eight, w5: Eight,
                 w6: Eight, w7: Eight)
    requires |block| == BLOCK && Words(block, 0) == w0 && Words(block, 8) == w1
    requires Extends(w0, w1, w2) && Extends(w1, w2, w3) && Extends(w2, w3, w4)
    requires Extends(w3, w4, w5) && Extends(w4, w5, w6) && Extends(w5, w6, w7)
    ensures Words(block, 16) == w2 && Words(block, 24) == w3 && Words(block, 32) == w4
    ensures Words(block, 40) == w5 && Words(block, 48) == w6 && Words(block, 56) == w7
  {
    hide Words, Extends;
    NextWords(block, 0, w0, w1, w2);
    NextWords(block, 8, w1, w2, w3);
    NextWords(block, 16, w2, w3, w4);
    NextWords(block, 24, w3, w4, w5);
    NextWords(block, 32, w4, w5, w6);
    NextWords(block, 40, w5, w6, w7);
  }

  predicate Constants(n: nat, k: Eight) {
    && n + 8 <= |K| && k == Eight(K[n], K[n + 1], K[n + 2], K[n + 3], K[n + 4], K[n + 5], K[n + 6], K[n + 7])
  }

  lemma OneRound(s: State, block: seq<byte>, n: nat)
    requires |block| == BLOCK && n < 64
    ensures |K| == 64 && Rounds(s, block, n + 1) == Round(Rounds(s, block, n), K[n], Schedule(block, n))
  {
  }

  lemma EightRounds(s: State, block: seq<byte>, n: nat, r: State, m: State, t: State, k: Eight, w: Eight)
    requires |block| == BLOCK && n + 8 <= 64 && Constants(n, k)
    requires Rounds(s, block, n) == r && Words(block, n) == w && Turns(r, m, t, k, w)
    ensures Rounds(s, block, n + 8) == t
  {
    hide Schedule, Rounds, Round;
    OneRound(s, block, n);
    OneRound(s, block, n + 1);
    OneRound(s, block, n + 2);
    OneRound(s, block, n + 3);
    OneRound(s, block, n + 4);
    OneRound(s, block, n + 5);
    OneRound(s, block, n + 6);
    OneRound(s, block, n + 7);
  }
  const C0 := Eight(0x428a2f98, 0x71374491, 0xb5c0fbcf, 0xe9b5dba5, 0x3956c25b, 0x59f111f1, 0x923f82a4, 0xab1c5ed5)
  const C1 := Eight(0xd807aa98, 0x12835b01, 0x243185be, 0x550c7dc3, 0x72be5d74, 0x80deb1fe, 0x9bdc06a7, 0xc19bf174)
  const C2 := Eight(0xe49b69c1, 0xefbe4786, 0x0fc19dc6, 0x240ca1cc, 0x2de92c6f, 0x4a7484aa, 0x5cb0a9dc, 0x76f988da)
  const C3 := Eight(0x983e5152, 0xa831c66d, 0xb00327c8, 0xbf597fc7, 0xc6e00bf3, 0xd5a79147, 0x06ca6351, 0x14292967)
  const C4 := Eight(0x27b70a85, 0x2e1b2138, 0x4d2c6dfc, 0x53380d13, 0x650a7354, 0x766a0abb, 0x81c2c92e, 0x92722c85)
  const C5 := Eight(0xa2bfe8a1, 0xa81a664b, 0xc24b8b70, 0xc76c51a3, 0xd192e819, 0xd6990624, 0xf40e3585, 0x106aa070)
  const C6 := Eight(0x19a4c116, 0x1e376c08, 0x2748774c, 0x34b0bcb5, 0x391c0cb3, 0x4ed8aa4a, 0x5b9cca4f, 0x682e6ff3)
  const C7 := Eight(0x748f82ee, 0x78a5636f, 0x84c87814, 0x8cc70208, 0x90befffa, 0xa4506ceb, 0xbef9a3f7, 0xc67178f2)

  lemma ConstantsTo32()
    ensures Constants(0, C0)
    ensures Constants(8, C1)
    ensures Constants(16, C2)
    ensures Constants(24, C3)
  {
  }

  lemma ConstantsFrom32()
    ensures Constants(32, C4)
    ensures Constants(40, C5)
    ensures Constants(48, C6)
    ensures Constants(56, C7)
  {
  }

  lemma NoRounds(s: State, block: seq<byte>)
    requires |block| == BLOCK
    ensures Rounds(s, block, 0) == s
  {
  }

  // ---- messages ----

  function Ascii(s: string): (bytes: seq<byte>)
    ensures |bytes| == |s| && forall i :: 0 <= i < |s| && s[i] as nat < 128 ==> bytes[i] == s[i] as nat
  {
    seq(|s|, i requires 0 <= i < |s| => if s[i] as nat < 128 then s[i] as nat else 0x3f)
  }

  function Quad(a: byte, b: byte, c: byte, d: byte): Word {
    ((a as Word) << 24) | ((b as Word) << 16) | ((c as Word) << 8) | (d as Word)
  }

  lemma WordOf(block: seq<byte>, t: nat, a: byte, b: byte, c: byte, d: byte)
    requires |block| == BLOCK && t < 16
    requires block[4 * t] == a && block[4 * t + 1] == b && block[4 * t + 2] == c && block[4 * t + 3] == d
    ensures Schedule(block, t) == Quad(a, b, c, d)
  {
  }

  /** The length of a message below 32 bytes in its last place. */
  lemma LengthBytes(n: nat)
    requires n < 256
    ensures BigEndian(n, 8) == [0, 0, 0, 0, 0, 0, 0, n]
  {
    assert BigEndian(0, 4) == [0, 0, 0, 0];
    assert BigEndian(0, 7) == [0, 0, 0, 0, 0, 0, 0];
  }

  lemma OneBlock(block: seq<byte>)
    requires |block| == BLOCK
    ensures Absorb(block) == Compress(INITIAL, block)
  {
    assert block[0..] == block;
  }

  // ---- the empty message ----

  const NIL_W0 := Eight(0x80000000, 0, 0, 0, 0, 0, 0, 0)
  const NIL_W1 := Eight(0, 0, 0, 0, 0, 0, 0, 0)
  const NIL_W2 := Eight(0x80000000, 0, 0x00205000, 0, 0x22000800, 0, 0x05089542, 0x80000000)
  const NIL_W3 := Eight(0x58080000, 0x0040a000, 0x00162505, 0x66001800, 0xd6222580, 0x14225508, 0xd645f95c, 0xc9282000)
  const NIL_W4 := Eight(0xc3f10094, 0x284ca766, 0x06886dc6, 0xa37bf116, 0x717cbe96, 0xfec2d74a, 0xa7b67f00, 0x811596a2)
  const NIL_W5 := Eight(0x98a6e768, 0x03b20c82, 0x5d1da7c9, 0xb156b935, 0xc3ddca11, 0x249c107f, 0xc48d24ef, 0x5de54c30)
  const NIL_W6 := Eight(0xdefece65, 0x2ca1480d, 0x3c15332c, 0x01cec9ad, 0x160cccd0, 0x0bacda98, 0x361b8fe0, 0xd2320ba6)
  const NIL_W7 := Eight(0x029b7007, 0x7546587c, 0x07f54f39, 0xf808ddc3, 0xdcca7608, 0x5e427188, 0x44bcec5d, 0x3b5ec49b)
  const NIL_S0 := State(0x6a09e667, 0xbb67ae85, 0x3c6ef372, 0xa54ff53a, 0x510e527f, 0x9b05688c, 0x1f83d9ab, 0x5be0cd19)
  const NIL_S1 := State(0x4c23eacb, 0xc4ac5526, 0x9ce564d0, 0x7c08884d, 0x3037e1b5, 0x6fdb22fa, 0x2001b256, 0x18c7e2a2)
  const NIL_S2 := State(0x7ad5b1b6, 0xf0205590, 0x292e3b42, 0x4366f730, 0x53f94dcb, 0x82ede06f, 0x4f6540fa, 0xe7d0641e)
  const NIL_S3 := State(0xf5434c40, 0x158bb921, 0xefe8bf51, 0xf52d63a5, 0xd7e07c92, 0xe23643ce, 0x53072289, 0x7aafc618)
  const NIL_S4 := State(0xb40085b5, 0xb88afddb, 0x45c013a7, 0x2102d2cd, 0x5cb8e863, 0x1ccfac39, 0x2b427296, 0xcdfdfe52)
  const NIL_S5 := State(0x0a480908, 0x3067996a, 0xdd999a2b, 0x470d554a, 0x900d27ac, 0xd398dcea, 0x608c93d3, 0x70d43aa7)
  const NIL_S6 := State(0x985bed55, 0x404d8054, 0x99a6cb19, 0x75c7f0d8, 0x2c2c028d, 0xb1653710, 0xc287981e, 0x39953ccd)
  const NIL_S7 := State(0x6d8cc697, 0x2c8b2ab9, 0xc5b814ae, 0x7af6d48d, 0x66ed54fa, 0x9f934283, 0xe57ac3f4, 0xf55f8c25)
  const NIL_S8 := State(0x11e7025f, 0xa0bb0cdf, 0x72d3a00d, 0x64bc9e1c, 0xbbd7846c, 0x564a6626, 0xb04ab22d, 0x95696b75)
  const NIL_S9 := State(0x641fe878, 0x44a181a7, 0xa141b695, 0xe390f3b6, 0x3a705ea9, 0x6973aac2, 0x0bc457df, 0xccd25d8b)
  const NIL_S10 := State(0x499911b1, 0x9e58e42f, 0x56e3dc4e, 0xa096535d, 0x716bb025, 0x85a71424, 0xe807ea7f, 0xfac06aed)
  const NIL_S11 := State(0xe8e34752, 0xdbb545ab, 0x2298f88e, 0xfe86c833, 0x29426caa, 0xe0403eb9, 0xf5c58ae9, 0x849879df)
  const NIL_S12 := State(0x365a34cd, 0x54982d6c, 0x32fa442b, 0xa40972d4, 0xcbb3f8eb, 0x8a6a82b2, 0xd285c679, 0xaa2c1810)
  const NIL_S13 := State(0xd55e06c2, 0xc163cb21, 0x9798f5ed, 0x62a82a5e, 0xa194d14f, 0x36068bde, 0xe90aa770, 0x4cab6d8a)
  const NIL_S14 := State(0x01638014, 0x2caf58ca, 0x3a0e9477, 0xb1b29c90, 0xadf94e0a, 0xe588e598, 0xfd99936e, 0x43a5def8)
  const NIL_S15 := State(0x04441c0e, 0xe923abc6, 0xe7ec45bc, 0x7ec75212, 0xaaefa044, 0x08e0e6ea, 0xe2a91edc, 0x7951a330)
  const NIL_S16 := State(0x79a6dddb, 0xdd946d8f, 0x5e8d0156, 0xf41fc3ea, 0xd69fef65, 0xc9962ac0, 0x8511bf70, 0x1c71eb3c)

  lemma NilSchedule0()
    ensures Extends(NIL_W0, NIL_W1, NIL_W2)
  {
    hide SmallSigma0, SmallSigma1;
    SmallForms();
  }

  lemma NilSchedule1()
    ensures Extends(NIL_W1, NIL_W2, NIL_W3)
  {
    hide SmallSigma0, SmallSigma1;
    SmallForms();
  }

  lemma NilSchedule2()
    ensures Extends(NIL_W2, NIL_W3, NIL_W4)
  {
    hide SmallSigma0, SmallSigma1;
    SmallForms();
  }

  lemma NilSchedule3()
    ensures Extends(NIL_W3, NIL_W4, NIL_W5)
    ensures Extends(NIL_W4, NIL_W5, NIL_W6)
    ensures Extends(NIL_W5, NIL_W6, NIL_W7)
  {
    hide SmallSigma0, SmallSigma1;
    SmallForms();
  }

  lemma NilRounds0()
    ensures Turns(NIL_S0, NIL_S1, NIL_S2, C0, NIL_W0)
  {
    hide BigSigma0, BigSigma1;
    BigForms();
  }

  lemma NilRounds1()
    ensures Turns(NIL_S2, NIL_S3, NIL_S4, C1, NIL_W1)
  {
    hide BigSigma0, BigSigma1;
    BigForms();
  }

  lemma NilRounds2()
    ensures Turns(NIL_S4, NIL_S5, NIL_S6, C2, NIL_W2)
  {
    hide BigSigma0, BigSigma1;
    BigForms();
  }

  lemma NilRounds3()
    ensures Turns(NIL_S6, NIL_S7, NIL_S8, C3, NIL_W3)
  {
    hide BigSigma0, BigSigma1;
    BigForms();
  }

  lemma NilRounds4()
    ensures Turns(NIL_S8, NIL_S9, NIL_S10, C4, NIL_W4)
  {
    hide BigSigma0, BigSigma1;
    BigForms();
  }

  lemma NilRounds5()
    ensures Turns(NIL_S10, NIL_S11, NIL_S12, C5, NIL_W5)
  {
    hide BigSigma0, BigSigma1;
    BigForms();
  }

  lemma NilRounds6()
    ensures Turns(NIL_S12, NIL_S13, NIL_S14, C6, NIL_W6)
  {
    hide BigSigma0, BigSigma1;
    BigForms();
  }

  lemma NilRounds7()
    ensures Turns(NIL_S14, NIL_S15, NIL_S16, C7, NIL_W7)
  {
    hide BigSigma0, BigSigma1;
    BigForms();
  }

  lemma NilCompress(block: seq<byte>)
    requires |block| == BLOCK && Words(block, 0) == NIL_W0 && Words(block, 8) == NIL_W1
    ensures Compress(NIL_S0, block) ==
            State(0xe3b0c442, 0x98fc1c14, 0x9afbf4c8, 0x996fb924, 0x27ae41e4, 0x649b934c, 0xa495991b, 0x7852b855)
  {
    hide Words, Extends, Turns, Constants, Rounds;
    NilSchedule0();
    NilSchedule1();
    NilSchedule2();
    NilSchedule3();
    AllWords(block, NIL_W0, NIL_W1, NIL_W2, NIL_W3, NIL_W4, NIL_W5, NIL_W6, NIL_W7);
    ConstantsTo32();
    ConstantsFrom32();
    NoRounds(NIL_S0, block);
    NilRounds0();
    EightRounds(NIL_S0, block, 0, NIL_S0, NIL_S1, NIL_S2, C0, NIL_W0);
    NilRounds1();
    EightRounds(NIL_S0, block, 8, NIL_S2, NIL_S3, NIL_S4, C1, NIL_W1);
    NilRounds2();
    EightRounds(NIL_S0, block, 16, NIL_S4, NIL_S5, NIL_S6, C2, NIL_W2);
    NilRounds3();
    EightRounds(NIL_S0, block, 24, NIL_S6, NIL_S7, NIL_S8, C3, NIL_W3);
    NilRounds4();
    EightRounds(NIL_S0, block, 32, NIL_S8, NIL_S9, NIL_S10, C4, NIL_W4);
    NilRounds5();
    EightRounds(NIL_S0, block, 40, NIL_S10, NIL_S11, NIL_S12, C5, NIL_W5);
    NilRounds6();
    EightRounds(NIL_S0, block, 48, NIL_S12, NIL_S13, NIL_S14, C6, NIL_W6);
    NilRounds7();
    EightRounds(NIL_S0, block, 56, NIL_S14, NIL_S15, NIL_S16, C7, NIL_W7);
  }

  lemma NilBlock() returns (block: seq<byte>)
    ensures block == Padded(Ascii("")) && |block| == BLOCK
    ensures Words(block, 0) == NIL_W0 && Words(block, 8) == NIL_W1
  {
    hide Schedule;
    var msg := Ascii("");
    block := Padded(msg);
    assert PadZeros(0) == 55;
    LengthBytes(0);
    assert block == msg + [0x80] + Zeros(55) + [0, 0, 0, 0, 0, 0, 0, 0];
    WordOf(block, 0, 0x80, 0, 0, 0);
    forall t | 1 <= t < 15
      ensures Schedule(block, t) == 0
    {
      WordOf(block, t, 0, 0, 0, 0);
    }
    WordOf(block, 15, 0, 0, 0, 0);
  }

  lemma NilBytes()
    ensures Digest(
              State(0xe3b0c442, 0x98fc1c14, 0x9afbf4c8, 0x996fb924, 0x27ae41e4, 0x649b934c, 0xa495991b, 0x7852b855)) ==
              [
        0xe3, 0xb0, 0xc4, 0x42, 0x98, 0xfc, 0x1c, 0x14, 0x9a, 0xfb, 0xf4, 0xc8, 0x99, 0x6f, 0xb9, 0x24,
        0x27, 0xae, 0x41, 0xe4, 0x64, 0x9b, 0x93, 0x4c, 0xa4, 0x95, 0x99, 0x1b, 0x78, 0x52, 0xb8, 0x55]
  {
  }

  /** The digest of the empty message. */
  lemma NilDigest()
    ensures Hash(Ascii("")) == [
        0xe3, 0xb0, 0xc4, 0x42, 0x98, 0xfc, 0x1c, 0x14, 0x9a, 0xfb, 0xf4, 0xc8, 0x99, 0x6f, 0xb9, 0x24,
        0x27, 0xae, 0x41, 0xe4, 0x64, 0x9b, 0x93, 0x4c, 0xa4, 0x95, 0x99, 0x1b, 0x78, 0x52, 0xb8, 0x55]
  {
    hide Compress, Padded, Digest;
    var block := NilBlock();
    OneBlock(block);
    NilCompress(block);
    NilBytes();
  }

  // ---- the message of three bytes ----

  const ABC_W0 := Eight(0x61626380, 0, 0, 0, 0, 0, 0, 0)
  const ABC_W1 := Eight(0, 0, 0, 0, 0, 0, 0, 0x00000018)
  const ABC_W2 := Eight(0x61626380, 0x000f0000, 0x7da86405, 0x600003c6, 0x3e9d7b78, 0x0183fc00, 0x12dcbfdb, 0xe2e2c38e)
  const ABC_W3 := Eight(0xc8215c1a, 0xb73679a2, 0xe5bc3909, 0x32663c5b, 0x9d209d67, 0xec8726cb, 0x702138a4, 0xd3b7973b)
  const ABC_W4 := Eight(0x93f5997f, 0x3b68ba73, 0xaff4ffc1, 0xf10a5c62, 0x0a8b3996, 0x72af830a, 0x9409e33e, 0x24641522)
  const ABC_W5 := Eight(0x9f47bf94, 0xf0a64f5a, 0x3e246a79, 0x27333ba3, 0x0c4763f2, 0x840abf27, 0x7a290d5d, 0x065c43da)
  const ABC_W6 := Eight(0xfb3e89cb, 0xcc7617db, 0xb9e66c34, 0xa9993667, 0x84badedd, 0xc21462bc, 0x1487472c, 0xb20f7a99)
  const ABC_W7 := Eight(0xef57b9cd, 0xebe6b238, 0x9fe3095e, 0x78bc8d4b, 0xa43fcf15, 0x668b2ff8, 0xeeaba2cc, 0x12b1edeb)
  const ABC_S0 := State(0x6a09e667, 0xbb67ae85, 0x3c6ef372, 0xa54ff53a, 0x510e527f, 0x9b05688c, 0x1f83d9ab, 0x5be0cd19)
  const ABC_S1 := State(0xd550f666, 0xc8c347a7, 0x5a6ad9ad, 0x5d6aebcd, 0x24e00850, 0xf92939eb, 0x78ce7989, 0xfa2a4622)
  const ABC_S2 := State(0x85a07b5f, 0xe5030380, 0x2b4209f5, 0x04409a6a, 0x0c657a79, 0x9b27a401, 0x714260ad, 0x43ada245)
  const ABC_S3 := State(0xf71fc5a9, 0x4798a3f4, 0x8c87346b, 0x8e04ecb9, 0x816fd6e9, 0x436b23e8, 0x1cc92596, 0x32ca2d8c)
  const ABC_S4 := State(0xb0fa238e, 0xc0645fde, 0xd932eb16, 0x87912990, 0x07590dcd, 0x0b92f20c, 0x745a48de, 0x1e578218)
  const ABC_S5 := State(0xe1f20c33, 0xfe777bbf, 0xc2fbd9d1, 0x21da9a9b, 0xb0638179, 0xcc899961, 0x846ee454, 0x8034229c)
  const ABC_S6 := State(0xc5d53d8d, 0xa7a3623f, 0xc2606d6d, 0x9dc68b63, 0xaa47c347, 0x49f5114a, 0xe1257970, 0x8ada8930)
  const ABC_S7 := State(0x77d37528, 0xb62ec4bc, 0xcde8037d, 0x1c2c2838, 0xedffbff8, 0xc74c6516, 0x14383d8e, 0x2823ef91)
  const ABC_S8 := State(0x73b33bf5, 0xea992a22, 0xa0060b30, 0x363482c9, 0xba591112, 0x0109ab3a, 0xade79437, 0x6112a3b7)
  const ABC_S9 := State(0x65a0cfe4, 0xa9a7738c, 0xfe604df5, 0x98e12507, 0xf4b002d6, 0x085f3833, 0x59249dd3, 0x9cd9f5f6)
  const ABC_S10 := State(0x79ea687a, 0x6dc57a8a, 0x34df1604, 0x41a65cb1, 0x1efbc0a0, 0xf0781bc8, 0xa507a53d, 0x0772a26b)
  const ABC_S11 := State(0x9d4baf93, 0x17aa0dfe, 0xdf46652f, 0xd6670766, 0xfda24c2e, 0xdecd4715, 0x838b2711, 0x26352d63)
  const ABC_S12 := State(0x4172328d, 0xa14c14b0, 0x72ab4b91, 0x26628815, 0xfecf0bc6, 0xd57b94a9, 0xb7755da1, 0xa80f11f0)
  const ABC_S13 := State(0x886e7a22, 0x7a0508a1, 0xf11bfaa8, 0x05757ceb, 0x49231c1e, 0x52f1ccf7, 0x6e5c390c, 0xbd714038)
  const ABC_S14 := State(0x38cc9913, 0x3ec45cdb, 0xf5702fdb, 0x101fd28f, 0x54cb266b, 0xe50e1b4f, 0x9f4787c3, 0x529e7d00)
  const ABC_S15 := State(0xb6ae8fff, 0xffb70472, 0xc062d46f, 0xfcd1887b, 0xb21bad3d, 0x6d83bfc6, 0x7e44008e, 0x9b5e906c)
  const ABC_S16 := State(0x506e3058, 0xd39a2165, 0x04d24d6c, 0xb85e2ce9, 0x5ef50f24, 0xfb121210, 0x948d25b6, 0x961f4894)

  lemma AbcSchedule0()
    ensures Extends(ABC_W0, ABC_W1, ABC_W2)
    ensures Extends(ABC_W1, ABC_W2, ABC_W3)
    ensures Extends(ABC_W2, ABC_W3, ABC_W4)
  {
    hide SmallSigma0, SmallSigma1;
    SmallForms();
  }

  lemma AbcSchedule3()
    ensures Extends(ABC_W3, ABC_W4, ABC_W5)
    ensures Extends(ABC_W4, ABC_W5, ABC_W6)
    ensures Extends(ABC_W5, ABC_W6, ABC_W7)
  {
    hide SmallSigma0, SmallSigma1;
    SmallForms();
  }

  lemma AbcRounds0()
    ensures Turns(ABC_S0, ABC_S1, ABC_S2, C0, ABC_W0)
  {
    hide BigSigma0, BigSigma1;
    BigForms();
  }

  lemma AbcRounds1()
    ensures Turns(ABC_S2, ABC_S3, ABC_S4, C1, ABC_W1)
  {
    hide BigSigma0, BigSigma1;
    BigForms();
  }

  lemma AbcRounds2()
    ensures Turns(ABC_S4, ABC_S5, ABC_S6, C2, ABC_W2)
  {
    hide BigSigma0, BigSigma1;
    BigForms();
  }

  lemma AbcRounds3()
    ensures Turns(ABC_S6, ABC_S7, ABC_S8, C3, ABC_W3)
  {
    hide BigSigma0, BigSigma1;
    BigForms();
  }

  lemma AbcRounds4()
    ensures Turns(ABC_S8, ABC_S9, ABC_S10, C4, ABC_W4)
  {
    hide BigSigma0, BigSigma1;
    BigForms();
  }

  lemma AbcRounds5()
    ensures Turns(ABC_S10, ABC_S11, ABC_S12, C5, ABC_W5)
  {
    hide BigSigma0, BigSigma1;
    BigForms();
  }

  lemma AbcRounds6()
    ensures Turns(ABC_S12, ABC_S13, ABC_S14, C6, ABC_W6)
  {
    hide BigSigma0, BigSigma1;
    BigForms();
  }

  lemma AbcRounds7()
    ensures Turns(ABC_S14, ABC_S15, ABC_S16, C7, ABC_W7)
  {
    hide BigSigma0, BigSigma1;
    BigForms();
  }

  lemma AbcCompress(block: seq<byte>)
    requires |block| == BLOCK && Words(block, 0) == ABC_W0 && Words(block, 8) == ABC_W1
    ensures Compress(ABC_S0, block) ==
            State(0xba7816bf, 0x8f01cfea, 0x414140de, 0x5dae2223, 0xb00361a3, 0x96177a9c, 0xb410ff61, 0xf20015ad)
  {
    hide Words, Extends, Turns, Constants, Rounds;
    AbcSchedule0();
    AbcSchedule3();
    AllWords(block, ABC_W0, ABC_W1, ABC_W2, ABC_W3, ABC_W4, ABC_W5, ABC_W6, ABC_W7);
    ConstantsTo32();
    ConstantsFrom32();
    NoRounds(ABC_S0, block);
    AbcRounds0();
    EightRounds(ABC_S0, block, 0, ABC_S0, ABC_S1, ABC_S2, C0, ABC_W0);
    AbcRounds1();
    EightRounds(ABC_S0, block, 8, ABC_S2, ABC_S3, ABC_S4, C1, ABC_W1);
    AbcRounds2();
    EightRounds(ABC_S0, block, 16, ABC_S4, ABC_S5, ABC_S6, C2, ABC_W2);
    AbcRounds3();
    EightRounds(ABC_S0, block, 24, ABC_S6, ABC_S7, ABC_S8, C3, ABC_W3);
    AbcRounds4();
    EightRounds(ABC_S0, block, 32, ABC_S8, ABC_S9, ABC_S10, C4, ABC_W4);
    AbcRounds5();
    EightRounds(ABC_S0, block, 40, ABC_S10, ABC_S11, ABC_S12, C5, ABC_W5);
    AbcRounds6();
    EightRounds(ABC_S0, block, 48, ABC_S12, ABC_S13, ABC_S14, C6, ABC_W6);
    AbcRounds7();
    EightRounds(ABC_S0, block, 56, ABC_S14, ABC_S15, ABC_S16, C7, ABC_W7);
  }

  lemma AbcBlock() returns (block: seq<byte>)
    ensures block == Padded(Ascii("abc")) && |block| == BLOCK
    ensures Words(block, 0) == ABC_W0 && Words(block, 8) == ABC_W1
  {
    hide Schedule;
    var msg := Ascii("abc");
    block := Padded(msg);
    assert PadZeros(3) == 52;
    LengthBytes(24);
    assert block == msg + [0x80] + Zeros(52) + [0, 0, 0, 0, 0, 0, 0, 24];
    WordOf(block, 0, 0x61, 0x62, 0x63, 0x80);
    forall t | 1 <= t < 15
      ensures Schedule(block, t) == 0
    {
      WordOf(block, t, 0, 0, 0, 0);
    }
    WordOf(block, 15, 0, 0, 0, 0x18);
  }

  lemma AbcBytes()
    ensures Digest(
              State(0xba7816bf, 0x8f01cfea, 0x414140de, 0x5dae2223, 0xb00361a3, 0x96177a9c, 0xb410ff61, 0xf20015ad)) ==
              [
        0xba, 0x78, 0x16, 0xbf, 0x8f, 0x01, 0xcf, 0xea, 0x41, 0x41, 0x40, 0xde, 0x5d, 0xae, 0x22, 0x23,
        0xb0, 0x03, 0x61, 0xa3, 0x96, 0x17, 0x7a, 0x9c, 0xb4, 0x10, 0xff, 0x61, 0xf2, 0x00, 0x15, 0xad]
  {
  }

  /** The example of one block. */
  lemma AbcDigest()
    ensures Hash(Ascii("abc")) == [
        0xba, 0x78, 0x16, 0xbf, 0x8f, 0x01, 0xcf, 0xea, 0x41, 0x41, 0x40, 0xde, 0x5d, 0xae, 0x22, 0x23,
        0xb0, 0x03, 0x61, 0xa3, 0x96, 0x17, 0x7a, 0x9c, 0xb4, 0x10, 0xff, 0x61, 0xf2, 0x00, 0x15, 0xad]
  {
    hide Compress, Padded, Digest;
    var block := AbcBlock();
    OneBlock(block);
    AbcCompress(block);
    AbcBytes();
  }

  // ---- the first block of the long message ----

  const ONE_W0 := Eight(0x61626364, 0x62636465, 0x63646566, 0x64656667, 0x65666768, 0x66676869, 0x6768696a, 0x68696a6b)
  const ONE_W1 := Eight(0x696a6b6c, 0x6a6b6c6d, 0x6b6c6d6e, 0x6c6d6e6f, 0x6d6e6f70, 0x6e6f7071, 0x80000000, 0)
  const ONE_W2 := Eight(0xeb8012ad, 0xa7c3ae92, 0x76e93ba2, 0xba42e743, 0x92a92204, 0xd847e75e, 0x9e160036, 0xb280a7cb)
  const ONE_W3 := Eight(0xddeb1516, 0xf36586f4, 0x969cd048, 0xe959d99d, 0x6accc0ec, 0xf54cb098, 0x2af1b2da, 0xee59c4c9)
  const ONE_W4 := Eight(0xa835e16a, 0x1dff4429, 0xd6e15959, 0xc397cd6e, 0x6f1801ca, 0x21574205, 0x35ff7a84, 0x9743ee78)
  const ONE_W5 := Eight(0xe44183e7, 0x0d09f00d, 0x9c89af54, 0x042d5bef, 0x71f134d0, 0x0f94f463, 0x7e49dc63, 0x6f65c997)
  const ONE_W6 := Eight(0x0b706583, 0x179312ca, 0x503054e9, 0xba125c39, 0x7e9392c9, 0xd5cbaa1e, 0x78e0585d, 0xf6e7611c)
  const ONE_W7 := Eight(0x8ac830ce, 0x8b47a303, 0xfd6e627f, 0x8c6e2c6a, 0x4001adf1, 0x1a3dd097, 0xa9df6f62, 0x6aa60a39)
  const ONE_S0 := State(0x6a09e667, 0xbb67ae85, 0x3c6ef372, 0xa54ff53a, 0x510e527f, 0x9b05688c, 0x1f83d9ab, 0x5be0cd19)
  const ONE_S1 := State(0x4a8d64d5, 0x97651825, 0x2f2d5fcf, 0x5d6aebb1, 0x6494841b, 0x62d5c49e, 0x4eb1cfce, 0xfa2a4606)
  const ONE_S2 := State(0xd237e6db, 0x485835b7, 0x55c8ef48, 0xf921c212, 0xa401d211, 0x39a5b2ca, 0x7ff91c94, 0x05c4f88a)
  const ONE_S3 := State(0x1762215c, 0xb8e2b4cb, 0x3a474b2b, 0x359f2bce, 0xee1c97a8, 0x443ed29e, 0x9037b3b8, 0xc09ffec4)
  const ONE_S4 := State(0xc3486194, 0xdd16cbb3, 0xd68e6457, 0x101a4861, 0x1496a54f, 0x9162aded, 0x9243f8af, 0x839a0fc9)
  const ONE_S5 := State(0x2139187b, 0xf402f058, 0x046a193e, 0xb9dcacb1, 0x7c304206, 0x6f433549, 0x885370b6, 0xd4f64250)
  const ONE_S6 := State(0x59fce6b9, 0xae2e2d4f, 0x1b2b66b8, 0xd70ac17d, 0xa2c7d51d, 0xf074fc95, 0xd560b028, 0x7cc6b262)
  const ONE_S7 := State(0x73f858af, 0x128661da, 0x573221da, 0x4a885065, 0xe77c797f, 0x1162d575, 0x36e74eb4, 0x763597fb)
  const ONE_S8 := State(0x5581ab07, 0xeb43f3ed, 0xdf7151a0, 0x74bcf468, 0xdf980085, 0x0635d880, 0x7629c961, 0x72abaecd)
  const ONE_S9 := State(0x0786dce8, 0x1df8e885, 0x9ce5a62f, 0x9fc905c8, 0xde2a21d1, 0x2a9e048e, 0x6ef3b6bd, 0xa94d2af1)
  const ONE_S10 := State(0x7e4d30b8, 0x91ac9d5d, 0xa985b4be, 0x2c55d3a6, 0x9f5b9b6d, 0x68d8d590, 0xf72bf353, 0xb067c1af)
  const ONE_S11 := State(0x167361de, 0xb62c7013, 0x508a16ab, 0x7e056794, 0x41dd3844, 0x80a92a00, 0x45459d97, 0x423b26c0)
  const ONE_S12 := State(0x13d82741, 0x165be9cd, 0x18f0d19d, 0xde71e2f2, 0xa7802a4d, 0xa483f080, 0x6b88472c, 0xff61c636)
  const ONE_S13 := State(0x81c1cde0, 0x758ca97a, 0x543c99a1, 0x017b9d99, 0x5c47eb7b, 0x100cf2ea, 0x16f134b6, 0xaeb10b60)
  const ONE_S14 := State(0x9e57c4a0, 0xf907b313, 0x1d6de87a, 0xb8d55619, 0xeec13548, 0x61a41711, 0x3443bed4, 0x1c806a61)
  const ONE_S15 := State(0xe18f259a, 0x921fccb6, 0x7c015a2c, 0x71629856, 0x51e15869, 0x43d8a034, 0xcb9d3dd0, 0x2f6c8c4e)
  const ONE_S16 := State(0x1bdc6f6f, 0x86126910, 0xf6f443f8, 0xbcfce922, 0x25d2430a, 0x2fc08f85, 0xacc75916, 0x962d8621)

  lemma OneSchedule0()
    ensures Extends(ONE_W0, ONE_W1, ONE_W2)
    ensures Extends(ONE_W1, ONE_W2, ONE_W3)
    ensures Extends(ONE_W2, ONE_W3, ONE_W4)
  {
    hide SmallSigma0, SmallSigma1;
    SmallForms();
  }

  lemma OneSchedule3()
    ensures Extends(ONE_W3, ONE_W4, ONE_W5)
    ensures Extends(ONE_W4, ONE_W5, ONE_W6)
    ensures Extends(ONE_W5, ONE_W6, ONE_W7)
  {
    hide SmallSigma0, SmallSigma1;
    SmallForms();
  }

  lemma OneRounds0()
    ensures Turns(ONE_S0, ONE_S1, ONE_S2, C0, ONE_W0)
  {
    hide BigSigma0, BigSigma1;
    BigForms();
  }

  lemma OneRounds1()
    ensures Turns(ONE_S2, ONE_S3, ONE_S4, C1, ONE_W1)
  {
    hide BigSigma0, BigSigma1;
    BigForms();
  }

  lemma OneRounds2()
    ensures Turns(ONE_S4, ONE_S5, ONE_S6, C2, ONE_W2)
  {
    hide BigSigma0, BigSigma1;
    BigForms();
  }

  lemma OneRounds3()
    ensures Turns(ONE_S6, ONE_S7, ONE_S8, C3, ONE_W3)
  {
    hide BigSigma0, BigSigma1;
    BigForms();
  }

  lemma OneRounds4()
    ensures Turns(ONE_S8, ONE_S9, ONE_S10, C4, ONE_W4)
  {
    hide BigSigma0, BigSigma1;
    BigForms();
  }

  lemma OneRounds5()
    ensures Turns(ONE_S10, ONE_S11, ONE_S12, C5, ONE_W5)
  {
    hide BigSigma0, BigSigma1;
    BigForms();
  }

  lemma OneRounds6()
    ensures Turns(ONE_S12, ONE_S13, ONE_S14, C6, ONE_W6)
  {
    hide BigSigma0, BigSigma1;
    BigForms();
  }

  lemma OneRounds7()
    ensures Turns(ONE_S14, ONE_S15, ONE_S16, C7, ONE_W7)
  {
    hide BigSigma0, BigSigma1;
    BigForms();
  }

  lemma OneCompress(block: seq<byte>)
    requires |block| == BLOCK && Words(block, 0) == ONE_W0 && Words(block, 8) == ONE_W1
    ensures Compress(ONE_S0, block) ==
            State(0x85e655d6, 0x417a1795, 0x3363376a, 0x624cde5c, 0x76e09589, 0xcac5f811, 0xcc4b32c1, 0xf20e533a)
  {
    hide Words, Extends, Turns, Constants, Rounds;
    OneSchedule0();
    OneSchedule3();
    AllWords(block, ONE_W0, ONE_W1, ONE_W2, ONE_W3, ONE_W4, ONE_W5, ONE_W6, ONE_W7);
    ConstantsTo32();
    ConstantsFrom32();
    NoRounds(ONE_S0, block);
    OneRounds0();
    EightRounds(ONE_S0, block, 0, ONE_S0, ONE_S1, ONE_S2, C0, ONE_W0);
    OneRounds1();
    EightRounds(ONE_S0, block, 8, ONE_S2, ONE_S3, ONE_S4, C1, ONE_W1);
    OneRounds2();
    EightRounds(ONE_S0, block, 16, ONE_S4, ONE_S5, ONE_S6, C2, ONE_W2);
    OneRounds3();
    EightRounds(ONE_S0, block, 24, ONE_S6, ONE_S7, ONE_S8, C3, ONE_W3);
    OneRounds4();
    EightRounds(ONE_S0, block, 32, ONE_S8, ONE_S9, ONE_S10, C4, ONE_W4);
    OneRounds5();
    EightRounds(ONE_S0, block, 40, ONE_S10, ONE_S11, ONE_S12, C5, ONE_W5);
    OneRounds6();
    EightRounds(ONE_S0, block, 48, ONE_S12, ONE_S13, ONE_S14, C6, ONE_W6);
    OneRounds7();
    EightRounds(ONE_S0, block, 56, ONE_S14, ONE_S15, ONE_S16, C7, ONE_W7);
  }

  // ---- the second block ----

  const TWO_W0 := Eight(0, 0, 0, 0, 0, 0, 0, 0)
  const TWO_W1 := Eight(0, 0, 0, 0, 0, 0, 0, 0x000001c0)
  const TWO_W2 := Eight(0, 0x00d80000, 0, 0x00003677, 0, 0x1df5600d, 0x000001c0, 0x1c00501c)
  const TWO_W3 := Eight(0x01b00000, 0x220a8d94, 0x0000a365, 0x177017e7, 0x63d38035, 0x090ab713, 0x4c7539ca, 0x0f19a8c9)
  const TWO_W4 := Eight(0x5df4b0c4, 0xe257036a, 0xc97bb6f1, 0xc5b46f4d, 0xf8253c4e, 0xa558d189, 0x78696285, 0xed07117f)
  const TWO_W5 := Eight(0x107358f6, 0x390ae496, 0x565010a2, 0xc51d7d44, 0x9e74c972, 0x6614b561, 0x30fc129d, 0x9ac684a8)
  const TWO_W6 := Eight(0x2b658dbd, 0xe290f793, 0x9eebb24c, 0x9713b5de, 0x41061ab7, 0xe022e23b, 0x0772079e, 0x7de22d9c)
  const TWO_W7 := Eight(0xc8b83778, 0x75a79849, 0xd93dbddb, 0x0a036c9d, 0xcb4f6ac6, 0x823f97e2, 0xea2f2a7a, 0xb9018b52)
  const TWO_S0 := State(0x85e655d6, 0x417a1795, 0x3363376a, 0x624cde5c, 0x76e09589, 0xcac5f811, 0xcc4b32c1, 0xf20e533a)
  const TWO_S1 := State(0xf268faa9, 0xfd1eebdc, 0x7c3c0f86, 0x7c20c838, 0xe20362ef, 0xaf71b9ea, 0x8c51be64, 0x4670ae6e)
  const TWO_S2 := State(0xbf9a93a0, 0x89bba3f1, 0x3eeb6c06, 0x185a5d79, 0x059abdd1, 0x0a34df03, 0xfe20cda6, 0x8dff3001)
  const TWO_S3 := State(0x5eb4ec40, 0x5b35025b, 0x2d964e86, 0x2c096744, 0xe11b4548, 0x10e77723, 0xaa27ed82, 0xabfa465b)
  const TWO_S4 := State(0x16a8cc79, 0x0cea5cbc, 0xd74080fa, 0x35ee996d, 0x0fcb1f6f, 0x60356548, 0x68aa893f, 0x5c24e2a2)
  const TWO_S5 := State(0x76f1a2bc, 0xdcff40fd, 0x23dcb6c2, 0xf16f634e, 0x0dc84bb1, 0x69bf7b95, 0xca9182d3, 0x8b21cdc1)
  const TWO_S6 := State(0xa4195b91, 0xf13ae55b, 0xd44dc81a, 0x20aad899, 0xeddbd6ed, 0x966aa287, 0x5bace62d, 0xcc4769f2)
  const TWO_S7 := State(0x0d936bab, 0x9450fbbc, 0xaa6cb982, 0x4984fa79, 0x6e495d4b, 0x09166dda, 0x0b5eeea4, 0xa530d939)
  const TWO_S8 := State(0xb0eab1c5, 0x02ef3a5f, 0x1cfa5eb0, 0xd958b529, 0xf6d93952, 0x5da10665, 0x6c49db9f, 0xc2fa99b1)
  const TWO_S9 := State(0xecde4e0d, 0x9907f1b6, 0x4bd1df96, 0x0bfba73c, 0x5dc119e6, 0x66c3043d, 0x905e44ac, 0x8b99e3a9)
  const TWO_S10 := State(0x221b8a5a, 0xadca7a96, 0xd949682b, 0x2f11c939, 0x0b82c5eb, 0xc6cce4ff, 0x32d99008, 0xfed4ce1d)
  const TWO_S11 := State(0xf2ad6322, 0x8300fca2, 0x2c794876, 0x12d97845, 0xcc48c7f3, 0xe0e3457c, 0xff6759ba, 0xe4213ca2)
  const TWO_S12 := State(0xd7354d5b, 0x0b3303a7, 0x104a7db4, 0x0f154e11, 0xaad55b6b, 0xbbe1c39a, 0x5348e8f6, 0x6f9517cb)
  const TWO_S13 := State(0x1a6bcf6a, 0xd8aabcf9, 0x2748e5ec, 0xb736d7a6, 0xff5e99d0, 0x27844711, 0xd4b58576, 0x68f25260)
  const TWO_S14 := State(0x92952710, 0xd9f0c115, 0xec02560a, 0x4eca6fa0, 0x226806d6, 0x624150c4, 0x7151df8e, 0x989ed071)
  const TWO_S15 := State(0x1c4cddd9, 0x286fe5f0, 0x4348eb1f, 0x20d4d0e4, 0xf487a853, 0x54076664, 0xc21eddf9, 0x4e515a4d)
  const TWO_S16 := State(0x9ea7148b, 0x908c2123, 0xb25cef29, 0xa9f181dd, 0x2c5c4ed0, 0x9a392956, 0x2aa1bb13, 0x27ccb387)

  lemma TwoSchedule0()
    ensures Extends(TWO_W0, TWO_W1, TWO_W2)
  {
    hide SmallSigma0, SmallSigma1;
    SmallForms();
  }

  lemma TwoSchedule1()
    ensures Extends(TWO_W1, TWO_W2, TWO_W3)
  {
    hide SmallSigma0, SmallSigma1;
    SmallForms();
  }

  lemma TwoSchedule2()
    ensures Extends(TWO_W2, TWO_W3, TWO_W4)
  {
    hide SmallSigma0, SmallSigma1;
    SmallForms();
  }

  lemma TwoSchedule3()
    ensures Extends(TWO_W3, TWO_W4, TWO_W5)
    ensures Extends(TWO_W4, TWO_W5, TWO_W6)
    ensures Extends(TWO_W5, TWO_W6, TWO_W7)
  {
    hide SmallSigma0, SmallSigma1;
    SmallForms();
  }

  lemma TwoRounds0()
    ensures Turns(TWO_S0, TWO_S1, TWO_S2, C0, TWO_W0)
  {
    hide BigSigma0, BigSigma1;
    BigForms();
  }

  lemma TwoRounds1()
    ensures Turns(TWO_S2, TWO_S3, TWO_S4, C1, TWO_W1)
  {
    hide BigSigma0, BigSigma1;
    BigForms();
  }

  lemma TwoRounds2()
    ensures Turns(TWO_S4, TWO_S5, TWO_S6, C2, TWO_W2)
  {
    hide BigSigma0, BigSigma1;
    BigForms();
  }

  lemma TwoRounds3()
    ensures Turns(TWO_S6, TWO_S7, TWO_S8, C3, TWO_W3)
  {
    hide BigSigma0, BigSigma1;
    BigForms();
  }

  lemma TwoRounds4()
    ensures Turns(TWO_S8, TWO_S9, TWO_S10, C4, TWO_W4)
  {
    hide BigSigma0, BigSigma1;
    BigForms();
  }

  lemma TwoRounds5()
    ensures Turns(TWO_S10, TWO_S11, TWO_S12, C5, TWO_W5)
  {
    hide BigSigma0, BigSigma1;
    BigForms();
  }

  lemma TwoRounds6()
    ensures Turns(TWO_S12, TWO_S13, TWO_S14, C6, TWO_W6)
  {
    hide BigSigma0, BigSigma1;
    BigForms();
  }

  lemma TwoRounds7()
    ensures Turns(TWO_S14, TWO_S15, TWO_S16, C7, TWO_W7)
  {
    hide BigSigma0, BigSigma1;
    BigForms();
  }

  lemma TwoCompress(block: seq<byte>)
    requires |block| == BLOCK && Words(block, 0) == TWO_W0 && Words(block, 8) == TWO_W1
    ensures Compress(TWO_S0, block) ==
            State(0x248d6a61, 0xd20638b8, 0xe5c02693, 0x0c3e6039, 0xa33ce459, 0x64ff2167, 0xf6ecedd4, 0x19db06c1)
  {
    hide Words, Extends, Turns, Constants, Rounds;
    TwoSchedule0();
    TwoSchedule1();
    TwoSchedule2();
    TwoSchedule3();
    AllWords(block, TWO_W0, TWO_W1, TWO_W2, TWO_W3, TWO_W4, TWO_W5, TWO_W6, TWO_W7);
    ConstantsTo32();
    ConstantsFrom32();
    NoRounds(TWO_S0, block);
    TwoRounds0();
    EightRounds(TWO_S0, block, 0, TWO_S0, TWO_S1, TWO_S2, C0, TWO_W0);
    TwoRounds1();
    EightRounds(TWO_S0, block, 8, TWO_S2, TWO_S3, TWO_S4, C1, TWO_W1);
    TwoRounds2();
    EightRounds(TWO_S0, block, 16, TWO_S4, TWO_S5, TWO_S6, C2, TWO_W2);
    TwoRounds3();
    EightRounds(TWO_S0, block, 24, TWO_S6, TWO_S7, TWO_S8, C3, TWO_W3);
    TwoRounds4();
    EightRounds(TWO_S0, block, 32, TWO_S8, TWO_S9, TWO_S10, C4, TWO_W4);
    TwoRounds5();
    EightRounds(TWO_S0, block, 40, TWO_S10, TWO_S11, TWO_S12, C5, TWO_W5);
    TwoRounds6();
    EightRounds(TWO_S0, block, 48, TWO_S12, TWO_S13, TWO_S14, C6, TWO_W6);
    TwoRounds7();
    EightRounds(TWO_S0, block, 56, TWO_S14, TWO_S15, TWO_S16, C7, TWO_W7);
  }

  const LONG0: string := "abcdbcdecdefdefg"
  const LONG1: string := "efghfghighijhijk"
  const LONG2: string := "ijkljklmklmnlmno"
  const LONG3: string := "mnopnopq"

  const LONG: string := LONG0 + LONG1 + LONG2 + LONG3

  lemma LongFirst()
    ensures forall i :: 0 <= i < 16 ==> LONG0[i] as nat == 0x61 + i / 4 + i % 4
    ensures forall i :: 0 <= i < 16 ==> LONG1[i] as nat == 0x65 + i / 4 + i % 4
  {
  }

  lemma LongSecond()
    ensures forall i :: 0 <= i < 16 ==> LONG2[i] as nat == 0x69 + i / 4 + i % 4
    ensures forall i :: 0 <= i < 8 ==> LONG3[i] as nat == 0x6d + i / 4 + i % 4
  {
  }

  lemma FourParts<T>(a: seq<T>, b: seq<T>, c: seq<T>, d: seq<T>, i: nat)
    requires |a| == |b| == |c| == 16 && |d| == 8 && i < 56
    ensures (a + b + c + d)[i] ==
      if i < 16 then a[i] else if i < 32 then b[i - 16] else if i < 48 then c[i - 32] else d[i - 48]
  {
  }

  /** Each group of four letters starts one letter later. */
  lemma LongLetters(i: nat)
    requires i < 56
    ensures |LONG| == 56 && LONG[i] as nat == 0x61 + i / 4 + i % 4
  {
    LongFirst();
    LongSecond();
    FourParts(LONG0, LONG1, LONG2, LONG3, i);
  }

  /** The first block, from the letters. */
  lemma LongFirstWords(first: seq<byte>)
    requires |first| == BLOCK && forall i :: 0 <= i < 56 ==> first[i] == 0x61 + i / 4 + i % 4
    ensures Words(first, 0) == ONE_W0
  {
    hide Schedule;
    WordOf(first, 0, 0x61, 0x62, 0x63, 0x64);
    WordOf(first, 1, 0x62, 0x63, 0x64, 0x65);
    WordOf(first, 2, 0x63, 0x64, 0x65, 0x66);
    WordOf(first, 3, 0x64, 0x65, 0x66, 0x67);
    WordOf(first, 4, 0x65, 0x66, 0x67, 0x68);
    WordOf(first, 5, 0x66, 0x67, 0x68, 0x69);
    WordOf(first, 6, 0x67, 0x68, 0x69, 0x6a);
    WordOf(first, 7, 0x68, 0x69, 0x6a, 0x6b);
  }

  lemma LongLastWords(first: seq<byte>)
    requires |first| == BLOCK && forall i :: 0 <= i < 56 ==> first[i] == 0x61 + i / 4 + i % 4
    requires first[56] == 0x80 && forall i :: 57 <= i < 64 ==> first[i] == 0
    ensures Words(first, 8) == ONE_W1
  {
    hide Schedule;
    WordOf(first, 8, 0x69, 0x6a, 0x6b, 0x6c);
    WordOf(first, 9, 0x6a, 0x6b, 0x6c, 0x6d);
    WordOf(first, 10, 0x6b, 0x6c, 0x6d, 0x6e);
    WordOf(first, 11, 0x6c, 0x6d, 0x6e, 0x6f);
    WordOf(first, 12, 0x6d, 0x6e, 0x6f, 0x70);
    WordOf(first, 13, 0x6e, 0x6f, 0x70, 0x71);
    WordOf(first, 14, 0x80, 0, 0, 0);
    WordOf(first, 15, 0, 0, 0, 0);
  }

  lemma LengthWords(second: seq<byte>)
    requires |second| == BLOCK && forall i :: 0 <= i < 62 ==> second[i] == 0
    requires second[62] == 0x01 && second[63] == 0xc0
    ensures Words(second, 0) == TWO_W0 && Words(second, 8) == TWO_W1
  {
    hide Schedule;
    forall t | 0 <= t < 15
      ensures Schedule(second, t) == 0
    {
      WordOf(second, t, 0, 0, 0, 0);
    }
    WordOf(second, 15, 0, 0, 0x01, 0xc0);
  }

  lemma LongBlocks() returns (first: seq<byte>, second: seq<byte>)
    ensures |first| == |second| == BLOCK && Padded(Ascii(LONG)) == first + second
    ensures Words(first, 0) == ONE_W0 && Words(first, 8) == ONE_W1
    ensures Words(second, 0) == TWO_W0 && Words(second, 8) == TWO_W1
  {
    hide Words;
    LongLetters(0);
    var msg := Ascii(LONG);
    assert PadZeros(56) == 63;
    TwoLengthBytes();
    first := msg + [0x80] + Zeros(7);
    second := Zeros(56) + [0, 0, 0, 0, 0, 0, 1, 0xc0];
    assert Zeros(63) == Zeros(7) + Zeros(56);
    assert Padded(msg) == first + second;
    forall i | 0 <= i < 56
      ensures first[i] == 0x61 + i / 4 + i % 4
    {
      LongLetters(i);
      assert first[i] == msg[i] && msg[i] == LONG[i] as nat;
    }
    LongFirstWords(first);
    LongLastWords(first);
    LengthWords(second);
  }

  lemma TwoLengthBytes()
    ensures BigEndian(448, 8) == [0, 0, 0, 0, 0, 0, 1, 0xc0]
  {
    assert BigEndian(1, 7) == [0, 0, 0, 0, 0, 0, 1] by {
      LengthBytes(1);
    }
  }

  lemma LongBytes()
    ensures Digest(
              State(0x248d6a61, 0xd20638b8, 0xe5c02693, 0x0c3e6039, 0xa33ce459, 0x64ff2167, 0xf6ecedd4, 0x19db06c1)) ==
              [
        0x24, 0x8d, 0x6a, 0x61, 0xd2, 0x06, 0x38, 0xb8, 0xe5, 0xc0, 0x26, 0x93, 0x0c, 0x3e, 0x60, 0x39,
        0xa3, 0x3c, 0xe4, 0x59, 0x64, 0xff, 0x21, 0x67, 0xf6, 0xec, 0xed, 0xd4, 0x19, 0xdb, 0x06, 0xc1]
  {
  }

  lemma TwoBlocks(first: seq<byte>, second: seq<byte>)
    requires |first| == |second| == BLOCK
    ensures |first + second| % BLOCK == 0 && Absorb(first + second) == Compress(Compress(INITIAL, first), second)
  {
    OneBlock(first);
    hide Compress;
    var data := first + second;
    assert data[..BLOCK] == first && data[BLOCK..] == second;
  }

  /** The example of two blocks. */
  lemma LongDigest()
    ensures Hash(Ascii(LONG)) == [
        0x24, 0x8d, 0x6a, 0x61, 0xd2, 0x06, 0x38, 0xb8, 0xe5, 0xc0, 0x26, 0x93, 0x0c, 0x3e, 0x60, 0x39,
        0xa3, 0x3c, 0xe4, 0x59, 0x64, 0xff, 0x21, 0x67, 0xf6, 0xec, 0xed, 0xd4, 0x19, 0xdb, 0x06, 0xc1]
  {
    hide Compress, Padded, Digest;
    var first, second := LongBlocks();
    TwoBlocks(first, second);
    OneCompress(first);
    TwoCompress(second);
    LongBytes();
  }
}
