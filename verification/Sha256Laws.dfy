/** The functions and constants of SHA-256 by properties that do not repeat their definitions: sections 4.1.2, 4.2.2 and
    5.3.3 of FIPS 180-4. */
module Sha256Laws {
  import opened Prelude
  import opened Bits
  import opened Sha256

  // ---- choice and majority ----

  /** Where x has a one the bit is that of y, elsewhere that of z. */
  lemma ChooseBits(x: Word, y: Word, z: Word)
    ensures Ch(x, y, z) & x == y & x
    ensures Ch(x, y, z) & !x == z & !x
  {
  }

  /** The bit that two of the three have. */
  lemma MajorityBits(x: Word, y: Word, z: Word)
    ensures Maj(x, y, z) == Maj(y, x, z) == Maj(x, z, y)
    ensures Maj(x, x, z) == x
    ensures Maj(x, y, !y) == x
  {
  }

  // ---- the sigmas ----

  /** The operator regrouped without a look at the bits. */
  lemma XorRegroup(a: Word, b: Word, c: Word)
    ensures Xor(a, b) == Xor(b, a) && Xor(a, Xor(b, c)) == Xor(Xor(a, b), c)
  {
  }

  lemma XorSwap(a: Word, b: Word, c: Word, d: Word)
    ensures Xor(Xor(a, b), Xor(c, d)) == Xor(Xor(a, c), Xor(b, d))
  {
    XorRegroup(Xor(a, b), c, d);
    XorRegroup(a, b, c);
    XorRegroup(c, b, d);
    XorRegroup(b, c, d);
    XorRegroup(a, c, b);
    XorRegroup(Xor(a, c), b, d);
    hide Xor;
  }

  lemma XorThree(a: Word, b: Word, c: Word, d: Word, e: Word, f: Word)
    ensures Xor(Xor(Xor(a, d), Xor(b, e)), Xor(c, f)) == Xor(Xor(Xor(a, b), c), Xor(Xor(d, e), f))
  {
    hide Xor;
    XorSwap(a, d, b, e);
    XorSwap(Xor(a, b), Xor(d, e), c, f);
  }

  // one amount at a time: together they are too much for the solver

  lemma Rotr2(x: Word, y: Word)
    ensures Rotr(Xor(x, y), 2) == Xor(Rotr(x, 2), Rotr(y, 2))
  {
  }

  lemma Rotr6(x: Word, y: Word)
    ensures Rotr(Xor(x, y), 6) == Xor(Rotr(x, 6), Rotr(y, 6))
  {
  }

  lemma Rotr7(x: Word, y: Word)
    ensures Rotr(Xor(x, y), 7) == Xor(Rotr(x, 7), Rotr(y, 7))
  {
  }

  lemma Rotr11(x: Word, y: Word)
    ensures Rotr(Xor(x, y), 11) == Xor(Rotr(x, 11), Rotr(y, 11))
  {
  }

  lemma Rotr13(x: Word, y: Word)
    ensures Rotr(Xor(x, y), 13) == Xor(Rotr(x, 13), Rotr(y, 13))
  {
  }

  lemma Rotr17(x: Word, y: Word)
    ensures Rotr(Xor(x, y), 17) == Xor(Rotr(x, 17), Rotr(y, 17))
  {
  }

  lemma Rotr18(x: Word, y: Word)
    ensures Rotr(Xor(x, y), 18) == Xor(Rotr(x, 18), Rotr(y, 18))
  {
  }

  lemma Rotr19(x: Word, y: Word)
    ensures Rotr(Xor(x, y), 19) == Xor(Rotr(x, 19), Rotr(y, 19))
  {
  }

  lemma Rotr22(x: Word, y: Word)
    ensures Rotr(Xor(x, y), 22) == Xor(Rotr(x, 22), Rotr(y, 22))
  {
  }

  lemma Rotr25(x: Word, y: Word)
    ensures Rotr(Xor(x, y), 25) == Xor(Rotr(x, 25), Rotr(y, 25))
  {
  }

  lemma Shift3(x: Word, y: Word)
    ensures ShiftRight(Xor(x, y), 3) == Xor(ShiftRight(x, 3), ShiftRight(y, 3))
  {
  }

  lemma Shift10(x: Word, y: Word)
    ensures ShiftRight(Xor(x, y), 10) == Xor(ShiftRight(x, 10), ShiftRight(y, 10))
  {
  }

  lemma LinearBigSigma0(x: Word, y: Word)
    ensures BigSigma0(Xor(x, y)) == Xor(BigSigma0(x), BigSigma0(y))
  {
    hide Xor, Rotr, ShiftRight;
    Rotr2(x, y);
    Rotr13(x, y);
    Rotr22(x, y);
    XorThree(Rotr(x, 2), Rotr(x, 13), Rotr(x, 22), Rotr(y, 2), Rotr(y, 13), Rotr(y, 22));
  }

  lemma LinearBigSigma1(x: Word, y: Word)
    ensures BigSigma1(Xor(x, y)) == Xor(BigSigma1(x), BigSigma1(y))
  {
    hide Xor, Rotr, ShiftRight;
    Rotr6(x, y);
    Rotr11(x, y);
    Rotr25(x, y);
    XorThree(Rotr(x, 6), Rotr(x, 11), Rotr(x, 25), Rotr(y, 6), Rotr(y, 11), Rotr(y, 25));
  }

  lemma LinearSmallSigma0(x: Word, y: Word)
    ensures SmallSigma0(Xor(x, y)) == Xor(SmallSigma0(x), SmallSigma0(y))
  {
    hide Xor, Rotr, ShiftRight;
    Rotr7(x, y);
    Rotr18(x, y);
    Shift3(x, y);
    XorThree(Rotr(x, 7), Rotr(x, 18), ShiftRight(x, 3), Rotr(y, 7), Rotr(y, 18), ShiftRight(y, 3));
  }

  lemma LinearSmallSigma1(x: Word, y: Word)
    ensures SmallSigma1(Xor(x, y)) == Xor(SmallSigma1(x), SmallSigma1(y))
  {
    hide Xor, Rotr, ShiftRight;
    Rotr17(x, y);
    Rotr19(x, y);
    Shift10(x, y);
    XorThree(Rotr(x, 17), Rotr(x, 19), ShiftRight(x, 10), Rotr(y, 17), Rotr(y, 19), ShiftRight(y, 10));
  }

  /** Each sigma is linear, so that it is known from its values on single bits. */
  lemma SigmasLinear(x: Word, y: Word)
    ensures BigSigma0(x ^ y) == BigSigma0(x) ^ BigSigma0(y)
    ensures BigSigma1(x ^ y) == BigSigma1(x) ^ BigSigma1(y)
    ensures SmallSigma0(x ^ y) == SmallSigma0(x) ^ SmallSigma0(y)
    ensures SmallSigma1(x ^ y) == SmallSigma1(x) ^ SmallSigma1(y)
  {
    hide BigSigma0, BigSigma1, SmallSigma0, SmallSigma1;
    LinearBigSigma0(x, y);
    LinearBigSigma1(x, y);
    LinearSmallSigma0(x, y);
    LinearSmallSigma1(x, y);
  }

  /** Bit i goes n places to the right, round the end of the word. */
  function Turned(i: Word, n: Word): Word
    requires i < 32 && n < 32
  {
    1 << ((i + 32 - n) % 32)
  }

  /** Bit i goes n places to the right, or out of the word. */
  function Shifted(i: Word, n: Word): Word
    requires i < 32 && n < 32
  {
    if i >= n then 1 << (i - n) else 0
  }

  lemma BitTurns(i: Word)
    requires i < 32
    ensures Rotr(1 << i, 2) == Turned(i, 2) && Rotr(1 << i, 6) == Turned(i, 6)
    ensures Rotr(1 << i, 7) == Turned(i, 7) && Rotr(1 << i, 11) == Turned(i, 11)
    ensures Rotr(1 << i, 13) == Turned(i, 13) && Rotr(1 << i, 17) == Turned(i, 17)
    ensures Rotr(1 << i, 18) == Turned(i, 18) && Rotr(1 << i, 19) == Turned(i, 19)
    ensures Rotr(1 << i, 22) == Turned(i, 22) && Rotr(1 << i, 25) == Turned(i, 25)
    ensures ShiftRight(1 << i, 3) == Shifted(i, 3) && ShiftRight(1 << i, 10) == Shifted(i, 10)
  {
  }

  /** The values on single bits. */
  lemma SigmasOnBits(i: Word)
    requires i < 32
    ensures BigSigma0(1 << i) == Turned(i, 2) ^ Turned(i, 13) ^ Turned(i, 22)
    ensures BigSigma1(1 << i) == Turned(i, 6) ^ Turned(i, 11) ^ Turned(i, 25)
    ensures SmallSigma0(1 << i) == Turned(i, 7) ^ Turned(i, 18) ^ Shifted(i, 3)
    ensures SmallSigma1(1 << i) == Turned(i, 17) ^ Turned(i, 19) ^ Shifted(i, 10)
  {
    BitTurns(i);
    hide Rotr, ShiftRight, Turned, Shifted;
  }

  // ---- the constants ----

  ghost predicate IsPrime(p: nat) {
    p >= 2 && forall d :: 2 <= d < p ==> p % d != 0
  }

  /** Two primes with none between them. */
  ghost predicate Consecutive(p: nat, q: nat) {
    p < q && IsPrime(p) && IsPrime(q) && forall n :: p < n < q ==> !IsPrime(n)
  }

  // the first 64 primes, in eight rows
  const P0: seq<nat> := [2, 3, 5, 7, 11, 13, 17, 19]
  const P1: seq<nat> := [23, 29, 31, 37, 41, 43, 47, 53]
  const P2: seq<nat> := [59, 61, 67, 71, 73, 79, 83, 89]
  const P3: seq<nat> := [97, 101, 103, 107, 109, 113, 127, 131]
  const P4: seq<nat> := [137, 139, 149, 151, 157, 163, 167, 173]
  const P5: seq<nat> := [179, 181, 191, 193, 197, 199, 211, 223]
  const P6: seq<nat> := [227, 229, 233, 239, 241, 251, 257, 263]
  const P7: seq<nat> := [269, 271, 277, 281, 283, 293, 307, 311]

  const PRIMES: seq<nat> := P0 + P1 + P2 + P3 + P4 + P5 + P6 + P7

  lemma Rows<T>(a: seq<T>, b: seq<T>, c: seq<T>, d: seq<T>, e: seq<T>, f: seq<T>, g: seq<T>, h: seq<T>, i: nat)
    requires |a| == |b| == |c| == |d| == |e| == |f| == |g| == |h| == 8 && i < 64
    ensures |a + b + c + d + e + f + g + h| == 64
    ensures (a + b + c + d + e + f + g + h)[i] ==
      if i < 8 then a[i] else if i < 16 then b[i - 8] else if i < 24 then c[i - 16] else if i < 32 then d[i - 24]
      else if i < 40 then e[i - 32] else if i < 48 then f[i - 40] else if i < 56 then g[i - 48] else h[i - 56]
  {
  }

  predicate NoSmallDivisor(n: nat) {
    && n % 2 != 0 && n % 3 != 0 && n % 5 != 0 && n % 7 != 0 && n % 11 != 0 && n % 13 != 0 && n % 17 != 0
  }

  lemma Multiple(n: nat, d: nat, k: nat, q: nat)
    requires d > 0 && n == d * k * q
    ensures n % d == 0
  {
    assert n == (k * q) * d + 0;
    DivisionParts(k * q, d, 0);
  }

  lemma SmallDivisor(n: nat, d: nat)
    requires 2 <= d < 18 && n % d == 0
    ensures !NoSmallDivisor(n)
  {
    var q := n / d;
    assert n == d * q;
    if
    case d % 2 == 0 => Multiple(n, 2, d / 2, q);
    case d % 3 == 0 => Multiple(n, 3, d / 3, q);
    case d % 2 != 0 && d % 3 != 0 => assert d == 5 || d == 7 || d == 11 || d == 13 || d == 17;
  }

  /** Of two factors of a number below 18 * 18 one is below 18. */
  lemma SmallFactor(n: nat, d: nat) returns (e: nat)
    requires 2 <= d < n < 324 && n % d == 0
    ensures 2 <= e < 18 && n % e == 0
  {
    var q := n / d;
    assert n == d * q;
    if d < 18 {
      e := d;
    } else {
      FactorBounds(n, d, q);
      Multiple(n, q, 1, d);
      e := q;
    }
  }

  lemma FactorBounds(n: nat, d: nat, q: nat)
    requires n == d * q && 18 <= d < n < 324
    ensures 2 <= q < 18
  {
    if q >= 18 { AtLeast(d, q); }
  }

  lemma AtLeast(d: nat, q: nat)
    requires d >= 18 && q >= 18
    ensures d * q >= 324
  {
  }

  /** Below 18 * 18 the seven primes up to 17 tell. */
  lemma PrimeByDivisors(n: nat)
    requires 17 < n < 324
    ensures IsPrime(n) <==> NoSmallDivisor(n)
  {
    if NoSmallDivisor(n) {
      forall d | 2 <= d < n
        ensures n % d != 0
      {
        if n % d == 0 {
          var e := SmallFactor(n, d);
          SmallDivisor(n, e);
        }
      }
    }
  }

  lemma FirstSeven()
    ensures Consecutive(2, 3) && Consecutive(3, 5) && Consecutive(5, 7)
    ensures Consecutive(7, 11) && Consecutive(11, 13) && Consecutive(13, 17)
  {
    assert 4 % 2 == 0 && 6 % 2 == 0 && 8 % 2 == 0 && 9 % 3 == 0 && 10 % 2 == 0;
    assert 12 % 2 == 0 && 14 % 2 == 0 && 15 % 3 == 0 && 16 % 2 == 0;
  }

  /** All numbers between p and q have one of the seven divisors. */
  predicate NoneBetween(p: nat, q: nat)
    decreases q - p
  {
    p + 1 >= q || (!NoSmallDivisor(p + 1) && NoneBetween(p + 1, q))
  }

  lemma {:induction false} NoneThere(p: nat, q: nat, n: nat)
    requires NoneBetween(p, q) && p < n < q
    ensures !NoSmallDivisor(n)
    decreases q - p
  {
    if n > p + 1 { NoneThere(p + 1, q, n); }
  }

  lemma NextPrime(p: nat, q: nat)
    requires 17 <= p < q < 324 && IsPrime(p) && NoSmallDivisor(q) && NoneBetween(p, q)
    ensures Consecutive(p, q)
  {
    PrimeByDivisors(q);
    forall n | p < n < q
      ensures !IsPrime(n)
    {
      PrimeByDivisors(n);
      NoneThere(p, q, n);
    }
  }

  lemma PrimesRow0()
    ensures forall i :: 0 <= i < 7 ==> Consecutive(P0[i], P0[i + 1])
    ensures Consecutive(P0[7], P1[0])
  {
    FirstSeven();
    hide IsPrime;
    NextPrime(17, 19);
    NextPrime(19, 23);
  }

  lemma PrimesRow1()
    requires IsPrime(23)
    ensures forall i :: 0 <= i < 7 ==> Consecutive(P1[i], P1[i + 1])
    ensures Consecutive(P1[7], P2[0])
  {
    hide IsPrime;
    NextPrime(23, 29);
    NextPrime(29, 31);
    NextPrime(31, 37);
    NextPrime(37, 41);
    NextPrime(41, 43);
    NextPrime(43, 47);
    NextPrime(47, 53);
    NextPrime(53, 59);
  }

  lemma PrimesRow2()
    requires IsPrime(59)
    ensures forall i :: 0 <= i < 7 ==> Consecutive(P2[i], P2[i + 1])
    ensures Consecutive(P2[7], P3[0])
  {
    hide IsPrime;
    NextPrime(59, 61);
    NextPrime(61, 67);
    NextPrime(67, 71);
    NextPrime(71, 73);
    NextPrime(73, 79);
    NextPrime(79, 83);
    NextPrime(83, 89);
    NextPrime(89, 97);
  }

  lemma PrimesRow3()
    requires IsPrime(97)
    ensures forall i :: 0 <= i < 7 ==> Consecutive(P3[i], P3[i + 1])
    ensures Consecutive(P3[7], P4[0])
  {
    hide IsPrime;
    NextPrime(97, 101);
    NextPrime(101, 103);
    NextPrime(103, 107);
    NextPrime(107, 109);
    NextPrime(109, 113);
    NextPrime(113, 127);
    NextPrime(127, 131);
    NextPrime(131, 137);
  }

  lemma PrimesRow4()
    requires IsPrime(137)
    ensures forall i :: 0 <= i < 7 ==> Consecutive(P4[i], P4[i + 1])
    ensures Consecutive(P4[7], P5[0])
  {
    hide IsPrime;
    NextPrime(137, 139);
    NextPrime(139, 149);
    NextPrime(149, 151);
    NextPrime(151, 157);
    NextPrime(157, 163);
    NextPrime(163, 167);
    NextPrime(167, 173);
    NextPrime(173, 179);
  }

  lemma PrimesRow5()
    requires IsPrime(179)
    ensures forall i :: 0 <= i < 7 ==> Consecutive(P5[i], P5[i + 1])
    ensures Consecutive(P5[7], P6[0])
  {
    hide IsPrime;
    NextPrime(179, 181);
    NextPrime(181, 191);
    NextPrime(191, 193);
    NextPrime(193, 197);
    NextPrime(197, 199);
    NextPrime(199, 211);
    NextPrime(211, 223);
    NextPrime(223, 227);
  }

  lemma PrimesRow6()
    requires IsPrime(227)
    ensures forall i :: 0 <= i < 7 ==> Consecutive(P6[i], P6[i + 1])
    ensures Consecutive(P6[7], P7[0])
  {
    hide IsPrime;
    NextPrime(227, 229);
    NextPrime(229, 233);
    NextPrime(233, 239);
    NextPrime(239, 241);
    NextPrime(241, 251);
    NextPrime(251, 257);
    NextPrime(257, 263);
    NextPrime(263, 269);
  }

  lemma PrimesRow7()
    requires IsPrime(269)
    ensures forall i :: 0 <= i < 7 ==> Consecutive(P7[i], P7[i + 1])
  {
    hide IsPrime;
    NextPrime(269, 271);
    NextPrime(271, 277);
    NextPrime(277, 281);
    NextPrime(281, 283);
    NextPrime(283, 293);
    NextPrime(293, 307);
    NextPrime(307, 311);
  }

  /** The list is that of the first 64 primes. */
  lemma PrimesInOrder(i: nat)
    requires i < 63
    ensures |PRIMES| == 64 && PRIMES[0] == 2 && Consecutive(PRIMES[i], PRIMES[i + 1])
  {
    hide Consecutive;
    Rows(P0, P1, P2, P3, P4, P5, P6, P7, i);
    Rows(P0, P1, P2, P3, P4, P5, P6, P7, i + 1);
    AllRows();
  }

  lemma AllRows()
    ensures forall i :: 0 <= i < 7 ==> Consecutive(P0[i], P0[i + 1]) && Consecutive(P1[i], P1[i + 1])
    ensures forall i :: 0 <= i < 7 ==> Consecutive(P2[i], P2[i + 1]) && Consecutive(P3[i], P3[i + 1])
    ensures forall i :: 0 <= i < 7 ==> Consecutive(P4[i], P4[i + 1]) && Consecutive(P5[i], P5[i + 1])
    ensures forall i :: 0 <= i < 7 ==> Consecutive(P6[i], P6[i + 1]) && Consecutive(P7[i], P7[i + 1])
    ensures Consecutive(P0[7], P1[0]) && Consecutive(P1[7], P2[0]) && Consecutive(P2[7], P3[0])
    ensures Consecutive(P3[7], P4[0]) && Consecutive(P4[7], P5[0]) && Consecutive(P5[7], P6[0])
    ensures Consecutive(P6[7], P7[0])
  {
    hide IsPrime;
    PrimesRow0();
    PrimesRow1();
    PrimesRow2();
    PrimesRow3();
    PrimesRow4();
    PrimesRow5();
    PrimesRow6();
    PrimesRow7();
  }

  function Cube(n: nat): nat {
    n * n * n
  }

  function Square(n: nat): nat {
    n * n
  }

  const TWO32: nat := 0x1_0000_0000

  /** The first 32 bits of the fraction of the cube root of p: n is 2^32 times the root, rounded down. */
  ghost predicate CubeRootFraction(w: Word, p: nat) {
    exists n: nat :: n % TWO32 == w as nat && Cube(n) <= p * 0x1_0000_0000_0000_0000_0000_0000 < Cube(n + 1)
  }

  ghost predicate SquareRootFraction(w: Word, p: nat) {
    exists n: nat :: n % TWO32 == w as nat && Square(n) <= p * 0x1_0000_0000_0000_0000 < Square(n + 1)
  }

  lemma CubeRoot(w: Word, p: nat, n: nat)
    requires n % TWO32 == w as nat && Cube(n) <= p * 0x1_0000_0000_0000_0000_0000_0000 < Cube(n + 1)
    ensures CubeRootFraction(w, p)
  {
  }

  lemma SquareRoot(w: Word, p: nat, n: nat)
    requires n % TWO32 == w as nat && Square(n) <= p * 0x1_0000_0000_0000_0000 < Square(n + 1)
    ensures SquareRootFraction(w, p)
  {
  }

  lemma CubeRoots0()
    ensures forall i :: 0 <= i < 8 ==> CubeRootFraction(K0[i], P0[i])
  {
    hide CubeRootFraction;
    CubeRoot(0x428a2f98, 2, 0x1428a2f98);
    CubeRoot(0x71374491, 3, 0x171374491);
    CubeRoot(0xb5c0fbcf, 5, 0x1b5c0fbcf);
    CubeRoot(0xe9b5dba5, 7, 0x1e9b5dba5);
    CubeRoot(0x3956c25b, 11, 0x23956c25b);
    CubeRoot(0x59f111f1, 13, 0x259f111f1);
    CubeRoot(0x923f82a4, 17, 0x2923f82a4);
    CubeRoot(0xab1c5ed5, 19, 0x2ab1c5ed5);
  }

  lemma CubeRoots1()
    ensures forall i :: 0 <= i < 8 ==> CubeRootFraction(K1[i], P1[i])
  {
    hide CubeRootFraction;
    CubeRoot(0xd807aa98, 23, 0x2d807aa98);
    CubeRoot(0x12835b01, 29, 0x312835b01);
    CubeRoot(0x243185be, 31, 0x3243185be);
    CubeRoot(0x550c7dc3, 37, 0x3550c7dc3);
    CubeRoot(0x72be5d74, 41, 0x372be5d74);
    CubeRoot(0x80deb1fe, 43, 0x380deb1fe);
    CubeRoot(0x9bdc06a7, 47, 0x39bdc06a7);
    CubeRoot(0xc19bf174, 53, 0x3c19bf174);
  }

  lemma CubeRoots2()
    ensures forall i :: 0 <= i < 8 ==> CubeRootFraction(K2[i], P2[i])
  {
    hide CubeRootFraction;
    CubeRoot(0xe49b69c1, 59, 0x3e49b69c1);
    CubeRoot(0xefbe4786, 61, 0x3efbe4786);
    CubeRoot(0x0fc19dc6, 67, 0x40fc19dc6);
    CubeRoot(0x240ca1cc, 71, 0x4240ca1cc);
    CubeRoot(0x2de92c6f, 73, 0x42de92c6f);
    CubeRoot(0x4a7484aa, 79, 0x44a7484aa);
    CubeRoot(0x5cb0a9dc, 83, 0x45cb0a9dc);
    CubeRoot(0x76f988da, 89, 0x476f988da);
  }

  lemma CubeRoots3()
    ensures forall i :: 0 <= i < 8 ==> CubeRootFraction(K3[i], P3[i])
  {
    hide CubeRootFraction;
    CubeRoot(0x983e5152, 97, 0x4983e5152);
    CubeRoot(0xa831c66d, 101, 0x4a831c66d);
    CubeRoot(0xb00327c8, 103, 0x4b00327c8);
    CubeRoot(0xbf597fc7, 107, 0x4bf597fc7);
    CubeRoot(0xc6e00bf3, 109, 0x4c6e00bf3);
    CubeRoot(0xd5a79147, 113, 0x4d5a79147);
    CubeRoot(0x06ca6351, 127, 0x506ca6351);
    CubeRoot(0x14292967, 131, 0x514292967);
  }

  lemma CubeRoots4()
    ensures forall i :: 0 <= i < 8 ==> CubeRootFraction(K4[i], P4[i])
  {
    hide CubeRootFraction;
    CubeRoot(0x27b70a85, 137, 0x527b70a85);
    CubeRoot(0x2e1b2138, 139, 0x52e1b2138);
    CubeRoot(0x4d2c6dfc, 149, 0x54d2c6dfc);
    CubeRoot(0x53380d13, 151, 0x553380d13);
    CubeRoot(0x650a7354, 157, 0x5650a7354);
    CubeRoot(0x766a0abb, 163, 0x5766a0abb);
    CubeRoot(0x81c2c92e, 167, 0x581c2c92e);
    CubeRoot(0x92722c85, 173, 0x592722c85);
  }

  lemma CubeRoots5()
    ensures forall i :: 0 <= i < 8 ==> CubeRootFraction(K5[i], P5[i])
  {
    hide CubeRootFraction;
    CubeRoot(0xa2bfe8a1, 179, 0x5a2bfe8a1);
    CubeRoot(0xa81a664b, 181, 0x5a81a664b);
    CubeRoot(0xc24b8b70, 191, 0x5c24b8b70);
    CubeRoot(0xc76c51a3, 193, 0x5c76c51a3);
    CubeRoot(0xd192e819, 197, 0x5d192e819);
    CubeRoot(0xd6990624, 199, 0x5d6990624);
    CubeRoot(0xf40e3585, 211, 0x5f40e3585);
    CubeRoot(0x106aa070, 223, 0x6106aa070);
  }

  lemma CubeRoots6()
    ensures forall i :: 0 <= i < 8 ==> CubeRootFraction(K6[i], P6[i])
  {
    hide CubeRootFraction;
    CubeRoot(0x19a4c116, 227, 0x619a4c116);
    CubeRoot(0x1e376c08, 229, 0x61e376c08);
    CubeRoot(0x2748774c, 233, 0x62748774c);
    CubeRoot(0x34b0bcb5, 239, 0x634b0bcb5);
    CubeRoot(0x391c0cb3, 241, 0x6391c0cb3);
    CubeRoot(0x4ed8aa4a, 251, 0x64ed8aa4a);
    CubeRoot(0x5b9cca4f, 257, 0x65b9cca4f);
    CubeRoot(0x682e6ff3, 263, 0x6682e6ff3);
  }

  lemma CubeRoots7()
    ensures forall i :: 0 <= i < 8 ==> CubeRootFraction(K7[i], P7[i])
  {
    hide CubeRootFraction;
    CubeRoot(0x748f82ee, 269, 0x6748f82ee);
    CubeRoot(0x78a5636f, 271, 0x678a5636f);
    CubeRoot(0x84c87814, 277, 0x684c87814);
    CubeRoot(0x8cc70208, 281, 0x68cc70208);
    CubeRoot(0x90befffa, 283, 0x690befffa);
    CubeRoot(0xa4506ceb, 293, 0x6a4506ceb);
    CubeRoot(0xbef9a3f7, 307, 0x6bef9a3f7);
    CubeRoot(0xc67178f2, 311, 0x6c67178f2);
  }

  /** The round constants are the fractions of the cube roots of the first 64 primes. */
  lemma RoundConstants(i: nat)
    requires i < 64
    ensures |K| == 64 && |PRIMES| == 64 && CubeRootFraction(K[i], PRIMES[i])
  {
    hide CubeRootFraction;
    Rows(K0, K1, K2, K3, K4, K5, K6, K7, i);
    Rows(P0, P1, P2, P3, P4, P5, P6, P7, i);
    CubeRoots0();
    CubeRoots1();
    CubeRoots2();
    CubeRoots3();
    CubeRoots4();
    CubeRoots5();
    CubeRoots6();
    CubeRoots7();
  }

  /** And the initial state the fractions of the square roots of the first eight. */
  lemma InitialConstants()
    ensures SquareRootFraction(INITIAL.a, PRIMES[0])
    ensures SquareRootFraction(INITIAL.b, PRIMES[1])
    ensures SquareRootFraction(INITIAL.c, PRIMES[2])
    ensures SquareRootFraction(INITIAL.d, PRIMES[3])
    ensures SquareRootFraction(INITIAL.e, PRIMES[4])
    ensures SquareRootFraction(INITIAL.f, PRIMES[5])
    ensures SquareRootFraction(INITIAL.g, PRIMES[6])
    ensures SquareRootFraction(INITIAL.h, PRIMES[7])
  {
    hide SquareRootFraction;
    assert PRIMES[..8] == P0;
    SquareRoot(0x6a09e667, 2, 0x16a09e667);
    SquareRoot(0xbb67ae85, 3, 0x1bb67ae85);
    SquareRoot(0x3c6ef372, 5, 0x23c6ef372);
    SquareRoot(0xa54ff53a, 7, 0x2a54ff53a);
    SquareRoot(0x510e527f, 11, 0x3510e527f);
    SquareRoot(0x9b05688c, 13, 0x39b05688c);
    SquareRoot(0x1f83d9ab, 17, 0x41f83d9ab);
    SquareRoot(0x5be0cd19, 19, 0x45be0cd19);
  }
}
