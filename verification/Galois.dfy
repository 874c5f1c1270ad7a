/** GF(256) as win/qrcodegen.js tables it, against multiplication modulo x^8 + x^4 + x^3 + x^2 + 1. */
module Galois {
  import opened Prelude
  import opened Bits

  // ---- the exclusive or of JavaScript, on non-negative numbers ----

  function Xor(a: nat, b: nat): nat
    decreases a + b
  {
    if a == 0 && b == 0 then 0
    else 2 * Xor(a / 2, b / 2) + if a % 2 != b % 2 then 1 else 0
  }

  lemma {:induction false} XorZero(a: nat)
    ensures Xor(a, 0) == a && Xor(0, a) == a
  {
    if a != 0 { XorZero(a / 2); }
  }

  lemma {:induction false} XorSelf(a: nat)
    ensures Xor(a, a) == 0
  {
    if a != 0 { XorSelf(a / 2); }
  }

  lemma {:induction false} XorComm(a: nat, b: nat)
    ensures Xor(a, b) == Xor(b, a)
    decreases a + b
  {
    if a != 0 || b != 0 { XorComm(a / 2, b / 2); }
  }

  lemma XorHalves(a: nat, b: nat)
    ensures Xor(a, b) / 2 == Xor(a / 2, b / 2)
    ensures Xor(a, b) % 2 == if a % 2 != b % 2 then 1 else 0
  {
  }

  lemma {:induction false} XorAssoc(a: nat, b: nat, c: nat)
    ensures Xor(Xor(a, b), c) == Xor(a, Xor(b, c))
    decreases a + b + c
  {
    if a + b + c > 0 {
      XorAssoc(a / 2, b / 2, c / 2);
      XorHalves(a, b);
      XorHalves(b, c);
      XorHalves(Xor(a, b), c);
      XorHalves(a, Xor(b, c));
      SameNumber(Xor(Xor(a, b), c), Xor(a, Xor(b, c)));
    }
  }

  lemma SameNumber(a: nat, b: nat)
    requires a / 2 == b / 2 && a % 2 == b % 2
    ensures a == b
  {
  }

  lemma XorSwap(a: nat, b: nat, c: nat, d: nat)
    ensures Xor(Xor(a, b), Xor(c, d)) == Xor(Xor(a, c), Xor(b, d))
  {
    XorAssoc(a, b, Xor(c, d));
    XorAssoc(b, c, d);
    XorComm(b, c);
    XorAssoc(c, b, d);
    XorAssoc(a, c, Xor(b, d));
  }

  lemma {:induction false} XorBound(a: nat, b: nat, k: nat)
    requires a < Pow2(k) && b < Pow2(k)
    ensures Xor(a, b) < Pow2(k)
  {
    if k > 0 { XorBound(a / 2, b / 2, k - 1); }
  }

  lemma {:induction false} XorDisjoint(hi: nat, k: nat, lo: nat)
    requires lo < Pow2(k)
    ensures Xor(lo, Shl(hi, k)) == Shl(hi, k) + lo
  {
    if k == 0 {
      XorZero(hi);
    } else {
      XorDisjoint(hi, k - 1, lo / 2);
    }
  }

  // ---- the reference: polynomials over GF(2) modulo 0x11d ----

  lemma ByteXor(a: byte, b: byte)
    ensures Xor(a, b) < 256
  {
    assert Pow2(8) == 256;
    XorBound(a, b, 8);
  }

  function Add(a: byte, b: byte): byte {
    ByteXor(a, b);
    Xor(a, b)
  }

  const MODULUS: nat := 0x11d

  /** Two top bits cancel. */
  lemma {:induction false} XorTop(a: nat, b: nat, k: nat)
    requires Pow2(k) <= a < Pow2(k + 1) && Pow2(k) <= b < Pow2(k + 1)
    ensures Xor(a, b) < Pow2(k)
  {
    if k > 0 {
      XorTop(a / 2, b / 2, k - 1);
    } else {
      assert Pow2(1) == 2 && a == b == 1;
      XorSelf(1);
    }
  }

  lemma Reduce(a: nat)
    requires 256 <= a < 512
    ensures Xor(a, MODULUS) < 256
  {
    assert Pow2(8) == 256 && Pow2(9) == 512;
    XorTop(a, MODULUS, 8);
  }

  /** Multiplication by x. */
  function X(a: byte): byte {
    if 2 * a < 256 then 2 * a
    else
      Reduce(2 * a);
      Xor(2 * a, MODULUS)
  }

  /** The product, one summand for each bit of b. */
  function Mul(a: byte, b: nat): byte
    decreases b
  {
    if b == 0 then 0 else Add(if b % 2 == 1 then a else 0, Mul(X(a), b / 2))
  }

  lemma XLinear(a: byte, b: byte)
    ensures X(Add(a, b)) == Add(X(a), X(b))
  {
    var m := MODULUS;
    assert Xor(2 * a, 2 * b) == 2 * Xor(a, b);
    TopBit(a, b);
    XorZero(2 * a);
    XorZero(2 * b);
    XorSelf(m);
    XorZero(m);
    XorSwap(2 * a, m, 2 * b, m);
    XorSwap(2 * a, m, 2 * b, 0);
    XorSwap(2 * a, 0, 2 * b, m);
    XorZero(Xor(2 * a, 2 * b));
  }

  lemma ShlTop()
    ensures Pow2(7) == 128 && Shl(0, 7) == 0 && Shl(1, 7) == 128
  {
  }

  /** The top bit of the sum is the sum of the top bits. */
  lemma TopBit(a: byte, b: byte)
    ensures Add(a, b) >= 128 <==> (a >= 128) != (b >= 128)
  {
    ShlTop();
    hide Xor, Shl;
    var ha, hb := if a >= 128 then 1 else 0, if b >= 128 then 1 else 0;
    var la, lb := a - 128 * ha, b - 128 * hb;
    XorDisjoint(ha, 7, la);
    XorDisjoint(hb, 7, lb);
    XorSwap(la, 128 * ha, lb, 128 * hb);
    XorBound(la, lb, 7);
    XorZero(128 * ha);
    XorZero(128 * hb);
    XorSelf(128);
    XorDisjoint(if ha != hb then 1 else 0, 7, Xor(la, lb));
  }

  lemma {:induction false} MulZero(b: nat)
    ensures Mul(0, b) == 0
  {
    if b > 0 { MulZero(b / 2); }
  }

  lemma {:induction false} MulX(a: byte, b: nat)
    ensures Mul(X(a), b) == X(Mul(a, b))
    decreases b
  {
    if b > 0 {
      MulX(X(a), b / 2);
      XLinear(if b % 2 == 1 then a else 0, Mul(X(a), b / 2));
    }
  }

  lemma {:induction false} MulDistributes(a: byte, b: nat, c: nat)
    ensures Mul(a, Xor(b, c)) == Add(Mul(a, b), Mul(a, c))
    decreases b + c
  {
    if b + c > 0 {
      MulDistributes(X(a), b / 2, c / 2);
      XorHalves(b, c);
      MulStep(a, Xor(b, c));
      MulStep(a, b);
      MulStep(a, c);
      var ab, ac := if b % 2 == 1 then a else 0, if c % 2 == 1 then a else 0;
      XorSwap(ab, Mul(X(a), b / 2), ac, Mul(X(a), c / 2));
      XorSelf(a);
      XorZero(a);
    }
  }

  /** The recursion of the product also holds at 0. */
  lemma MulStep(a: byte, b: nat)
    ensures Mul(a, b) == Add(if b % 2 == 1 then a else 0, Mul(X(a), b / 2))
  {
  }

  lemma ShlHalves(b: nat, k: nat)
    ensures Shl(b, k) == Shl(b / 2, k + 1) + if b % 2 == 1 then Shl(1, k) else 0
  {
    ShlSum(2 * (b / 2), b % 2, k);
    ShlAdd(b / 2, 1, k);
    assert Shl(b / 2, 1) == 2 * Shl(b / 2, 0);
    ShlMul(0, k);
  }

  lemma ShlOne(k: nat)
    requires k < 8
    ensures Shl(1, k) == Pow2(k) <= 128
  {
    ShlMul(1, k);
    Pow2Monotone(k, 7);
    assert Pow2(7) == 128;
  }

  /** As long as nothing is reduced, a product with a power of x is a shift. */
  lemma {:induction false} MulPower(p: byte, k: nat, b: nat)
    requires k < 8 && b < Pow2(8 - k) && p == Shl(1, k)
    ensures Mul(p, b) == Shl(b, k)
    decreases b
  {
    ShlHalves(b, k);
    var odd := if b % 2 == 1 then p else 0;
    MulStep(p, b);
    if b / 2 == 0 {
      ShlMul(0, k + 1);
      XorZero(odd);
    } else {
      ShlOne(k);
      NotReduced(k, b);
      MulPower(X(p), k + 1, b / 2);
      XorDisjoint(b / 2, k + 1, odd);
    }
  }

  lemma NotReduced(k: nat, b: nat)
    requires k < 8 && 2 <= b < Pow2(8 - k)
    ensures k < 7 && Shl(1, k) < 128 && b / 2 < Pow2(8 - (k + 1))
  {
    assert Pow2(1) == 2;
    ShlOne(k);
    assert Pow2(7) == 128;
    Pow2Monotone(k + 1, 7);
  }

  lemma MulOne(b: byte)
    ensures Mul(1, b) == b
  {
    assert Pow2(8) == 256;
    MulPower(1, 0, b);
  }

  // ---- the powers of the generator ----

  function Alpha(n: nat): byte {
    if n == 0 then 1 else X(Alpha(n - 1))
  }

  lemma {:induction false} AlphaAdd(i: nat, j: nat)
    ensures Mul(Alpha(i), Alpha(j)) == Alpha(i + j)
  {
    if i == 0 {
      MulOne(Alpha(j));
    } else {
      AlphaAdd(i - 1, j);
      MulX(Alpha(i - 1), Alpha(j));
    }
  }

  // ---- the order of the generator is 255 ----

  /** One bit more on each side. */
  lemma XorDouble(a: nat, p: nat, b: nat, q: nat)
    requires p < 2 && q < 2
    ensures Xor(2 * a + p, 2 * b + q) == 2 * Xor(a, b) + if p != q then 1 else 0
  {
    assert (2 * a + p) / 2 == a && (2 * a + p) % 2 == p;
    assert (2 * b + q) / 2 == b && (2 * b + q) % 2 == q;
  }

  lemma {:induction false} XorSplit(ha: nat, la: nat, hb: nat, lb: nat, k: nat)
    requires la < Pow2(k) && lb < Pow2(k)
    ensures Xor(Shl(ha, k) + la, Shl(hb, k) + lb) == Shl(Xor(ha, hb), k) + Xor(la, lb)
    decreases k, 1
  {
    if k == 0 {
      XorZero(0);
    } else {
      XorSplitBit(ha, la / 2, la % 2, hb, lb / 2, lb % 2, k);
    }
  }

  lemma {:induction false} XorSplitBit(ha: nat, la: nat, p: nat, hb: nat, lb: nat, q: nat, k: nat)
    requires k > 0 && p < 2 && q < 2 && 2 * la + p < Pow2(k) && 2 * lb + q < Pow2(k)
    ensures Xor(Shl(ha, k) + (2 * la + p), Shl(hb, k) + (2 * lb + q)) ==
            Shl(Xor(ha, hb), k) + Xor(2 * la + p, 2 * lb + q)
    decreases k, 0
  {
    hide Xor;
    XorSplit(ha, la, hb, lb, k - 1);
    XorDouble(Shl(ha, k - 1) + la, p, Shl(hb, k - 1) + lb, q);
    XorDouble(la, p, lb, q);
    assert Shl(ha, k) + (2 * la + p) == 2 * (Shl(ha, k - 1) + la) + p;
    assert Shl(hb, k) + (2 * lb + q) == 2 * (Shl(hb, k - 1) + lb) + q;
  }

  /** Against all ones the exclusive or is the complement. */
  lemma {:induction false} XorOnes(a: nat, k: nat)
    requires a < Pow2(k)
    ensures Xor(a, Pow2(k) - 1) == Pow2(k) - 1 - a
    decreases k, 1
  {
    if k > 0 {
      XorOnesBit(a / 2, a % 2, k);
    } else {
      XorZero(0);
    }
  }

  lemma {:induction false} XorOnesBit(a: nat, p: nat, k: nat)
    requires k > 0 && p < 2 && 2 * a + p < Pow2(k)
    ensures Xor(2 * a + p, Pow2(k) - 1) == Pow2(k) - 1 - (2 * a + p)
    decreases k, 0
  {
    hide Xor;
    XorOnes(a, k - 1);
    XorDouble(a, p, Pow2(k - 1) - 1, 1);
  }

  lemma ShlThree(a: nat)
    ensures Shl(a, 3) == 8 * a && Pow2(3) == 8
  {
    assert Shl(a, 1) == 2 * a;
  }

  lemma XorTopBit(h: nat)
    requires h < 8
    ensures Xor(8 + h, 8) == h
  {
    assert Pow2(3) == 8 && Shl(1, 3) == 8 && Shl(0, 3) == 0;
    XorSplit(1, h, 1, 0, 3);
    XorZero(h);
    XorSelf(1);
  }

  lemma XorMiddle(h: nat, m: nat)
    requires h < 8 && m < 8
    ensures Xor(64 + 8 * h + m, 71) == 8 * h + 7 - m
  {
    var seven := 7;
    ShlThree(8 + h);
    ShlThree(8);
    ShlThree(h);
    XorSplit(8 + h, m, 8, seven, 3);
    XorTopBit(h);
    XorOnes(m, 3);
  }

  /** Multiplication by x when the top bit falls off, with the other bits in groups of 3, 3 and 1. */
  lemma XFold(h: nat, m: nat, t: nat)
    requires h < 8 && m < 8 && t < 2
    ensures X(128 + 16 * h + 2 * m + t) == 32 * h + 4 * (7 - m) + 2 * t + 1
  {
    var a := 128 + 16 * h + 2 * m + t;
    var b := 64 + 8 * h + m;
    assert a / 2 == b && a % 2 == t;
    XorMiddle(h, m);
    XorHalves(a, 142);
    XorHalves(2 * a, MODULUS);
  }

  lemma AlphaTo25()
    ensures Alpha(15) == 38 && Alpha(25) == 3
  {
    assert Alpha(0) == 1;
    assert Alpha(3) == 8;
    assert Alpha(6) == 64;
    assert Alpha(7) == 128;
    XFold(0, 0, 0);
    assert Alpha(8) == 29;
    assert Alpha(11) == 232;
    XFold(6, 4, 0);
    assert Alpha(12) == 205;
    XFold(4, 6, 1);
    assert Alpha(13) == 135;
    XFold(0, 3, 1);
    assert Alpha(14) == 19;
    assert Alpha(15) == 38;
    assert Alpha(17) == 152;
    XFold(1, 4, 0);
    assert Alpha(18) == 45;
    assert Alpha(20) == 180;
    XFold(3, 2, 0);
    assert Alpha(21) == 117;
    assert Alpha(22) == 234;
    XFold(6, 5, 0);
    assert Alpha(23) == 201;
    XFold(4, 4, 1);
    assert Alpha(24) == 143;
    XFold(0, 7, 1);
  }

  lemma MulThreeBits(a: byte)
    ensures Mul(a, 3) == Add(a, X(a)) && Mul(a, 5) == Add(a, X(X(a))) && Mul(a, 17) == Add(a, X(X(X(X(a)))))
  {
    XorZero(X(a));
    XorZero(X(X(a)));
    XorZero(X(X(X(X(a)))));
    assert Mul(X(a), 1) == Add(X(a), Mul(X(X(a)), 0));
    assert Mul(X(X(a)), 1) == Add(X(X(a)), Mul(X(X(X(a))), 0));
    assert Mul(X(a), 2) == Add(0, Mul(X(X(a)), 1));
    var a4 := X(X(X(X(a))));
    assert Mul(a4, 1) == Add(a4, Mul(X(a4), 0));
    assert Mul(X(X(X(a))), 2) == Add(0, Mul(a4, 1));
    assert Mul(X(X(a)), 4) == Add(0, Mul(X(X(X(a))), 2));
    assert Mul(X(a), 8) == Add(0, Mul(X(X(a)), 4));
  }

  lemma SmallSums()
    ensures Xor(3, 6) == 5 && Xor(5, 20) == 17 && Xor(17, 13) == 28 && Xor(28, 112) == 108
  {
    assert Xor(0, 1) == 1 && Xor(1, 3) == 2;
    assert Xor(1, 5) == 4 && Xor(2, 10) == 8;
    assert Xor(2, 1) == 3 && Xor(4, 3) == 7 && Xor(8, 6) == 14;
    assert Xor(1, 7) == 6 && Xor(3, 14) == 13 && Xor(7, 28) == 27 && Xor(14, 56) == 54;
  }

  lemma AlphaTo50(n: nat)
    requires n == 25
    ensures Alpha(n + n) == 5
  {
    AlphaTo25();
    SmallSums();
    AlphaAdd(n, n);
    MulThreeBits(Alpha(n));
  }

  lemma AlphaTo100(n: nat)
    requires n == 25
    ensures Alpha(4 * n) == 17
  {
    AlphaTo50(n);
    SmallSums();
    AlphaAdd(2 * n, 2 * n);
    MulThreeBits(Alpha(2 * n));
  }

  lemma FourTimesX(a: byte)
    requires a == 17
    ensures X(X(X(X(a)))) == 13
  {
    XFold(0, 4, 0);
    var c := X(X(X(a)));
    assert c == 136;
  }

  lemma AlphaTo200(n: nat)
    requires n == 25
    ensures Alpha(8 * n) == 28
  {
    AlphaTo100(n);
    AlphaAdd(4 * n, 4 * n);
    var a := Alpha(4 * n);
    FourTimesX(a);
    MulThreeBits(a);
    SmallSums();
  }

  lemma AlphaTo255(n: nat)
    requires n == 25
    ensures Alpha(10 * n + 5) == 1
  {
    AlphaTo50(n);
    AlphaTo200(n);
    SmallSums();
    AlphaAdd(8 * n, 2 * n);
    MulThreeBits(Alpha(8 * n));
    AlphaTail(10 * n);
  }

  lemma AlphaTail(n: nat)
    requires Alpha(n) == 108
    ensures Alpha(n + 5) == 1
  {
    assert Alpha(n + 1) == 216;
    XFold(5, 4, 0);
    assert Alpha(n + 2) == 173;
    XFold(2, 6, 1);
    assert Alpha(n + 3) == 71;
    assert Alpha(n + 4) == 142;
    XFold(0, 7, 0);
  }
}
