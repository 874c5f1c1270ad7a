/** Numbers as strings of bits, in the two orders the codecs of win/qrcodegen.js use. */
module Bits {
  import opened Prelude

  function Pow2(n: nat): (p: nat)
    ensures p > 0
  {
    if n == 0 then 1 else 2 * Pow2(n - 1)
  }

  lemma {:induction false} Pow2Add(a: nat, b: nat)
    ensures Pow2(a + b) == Pow2(a) * Pow2(b)
  {
    if b > 0 {
      Pow2Add(a, b - 1);
    }
  }

  lemma {:induction false} Pow2Monotone(a: nat, b: nat)
    requires a <= b
    ensures Pow2(a) <= Pow2(b)
  {
    if a < b { Pow2Monotone(a, b - 1); }
  }

  lemma Pow2Values()
    ensures Pow2(0) == 1 && Pow2(1) == 2 && Pow2(2) == 4 && Pow2(3) == 8 && Pow2(4) == 16
    ensures Pow2(5) == 32 && Pow2(6) == 64 && Pow2(7) == 128 && Pow2(8) == 256
    ensures Pow2(9) == 512 && Pow2(10) == 1024 && Pow2(11) == 2048 && Pow2(12) == 4096
  {
  }

  /** The shift to the left, without a limit on the width. */
  function Shl(a: nat, k: nat): nat {
    if k == 0 then a else 2 * Shl(a, k - 1)
  }

  /** The unsigned shift to the right: k low bits fall off. */
  function Shr(a: nat, k: nat): nat {
    if k == 0 then a else Shr(a / 2, k - 1)
  }

  lemma {:induction false} ShlMul(a: nat, k: nat)
    ensures Shl(a, k) == a * Pow2(k)
  {
    if k > 0 { ShlMul(a, k - 1); }
  }

  lemma {:induction false} ShlAdd(a: nat, j: nat, k: nat)
    ensures Shl(Shl(a, j), k) == Shl(a, j + k)
  {
    if k > 0 { ShlAdd(a, j, k - 1); }
  }

  lemma {:induction false} ShlSum(a: nat, b: nat, k: nat)
    ensures Shl(a + b, k) == Shl(a, k) + Shl(b, k)
  {
    if k > 0 { ShlSum(a, b, k - 1); }
  }

  lemma {:induction false} ShrConcat(hi: nat, k: nat, lo: nat)
    requires lo < Pow2(k)
    ensures Shr(Shl(hi, k) + lo, k) == hi
  {
    if k > 0 {
      assert (Shl(hi, k) + lo) / 2 == Shl(hi, k - 1) + lo / 2;
      ShrConcat(hi, k - 1, lo / 2);
    }
  }

  /** k more low bits fit in k more bits. */
  lemma {:induction false} ShlBound(hi: nat, len: nat, lo: nat, k: nat)
    requires hi < Pow2(len) && lo < Pow2(k)
    ensures Shl(hi, k) + lo < Pow2(len + k)
  {
    if k > 0 {
      ShlBound(hi, len, lo / 2, k - 1);
    }
  }

  lemma {:induction false} ShrZero(a: nat, k: nat)
    ensures Shr(a, k) == 0 <==> a < Pow2(k)
  {
    if k > 0 { ShrZero(a / 2, k - 1); }
  }

  lemma {:induction false} ShrBound(a: nat, len: nat, k: nat)
    requires k <= len && a < Pow2(len)
    ensures Shr(a, k) < Pow2(len - k)
  {
    if k > 0 { ShrBound(a / 2, len - 1, k - 1); }
  }

  /** Every number splits into the k low bits and the rest. */
  lemma {:induction false} SplitLow(a: nat, k: nat) returns (lo: nat)
    ensures lo < Pow2(k) && a == Shl(Shr(a, k), k) + lo
  {
    if k == 0 {
      lo := 0;
    } else {
      var l := SplitLow(a / 2, k - 1);
      lo := 2 * l + a % 2;
    }
  }

  lemma DivisionParts(p: nat, w: nat, q: nat)
    requires q < w
    ensures (p * w + q) / w == p && (p * w + q) % w == q
  {
    var k := p * w + q;
    var p1, q1 := k / w, k % w;
    assert k == p1 * w + q1;
    if p < p1 {
      Multiples(p + 1, p1, w);
    } else if p1 < p {
      Multiples(p1 + 1, p, w);
    }
  }

  lemma Multiples(a: nat, b: nat, w: nat)
    requires a <= b
    ensures a * w <= b * w
  {
  }

  lemma Assoc<T>(a: seq<T>, b: seq<T>, c: seq<T>)
    ensures a + (b + c) == (a + b) + c
  {
  }

  // ---- least significant bit first (GIF) ----

  function LsbBits(n: nat, len: nat): (bits: seq<bool>)
    ensures |bits| == len
  {
    if len == 0 then [] else [n % 2 == 1] + LsbBits(n / 2, len - 1)
  }

  function LsbValue(bits: seq<bool>): nat {
    if bits == [] then 0 else (if bits[0] then 1 else 0) + 2 * LsbValue(bits[1..])
  }

  lemma {:induction false} LsbRoundTrip(n: nat, len: nat)
    requires n < Pow2(len)
    ensures LsbValue(LsbBits(n, len)) == n
  {
    if len > 0 {
      LsbRoundTrip(n / 2, len - 1);
      assert LsbBits(n, len)[1..] == LsbBits(n / 2, len - 1);
    }
  }

  /** The low bits of the sum are those of lo, the high ones those of hi. */
  lemma {:induction false} LsbConcat(lo: nat, k: nat, hi: nat, len: nat)
    requires lo < Pow2(k)
    ensures LsbBits(Shl(hi, k) + lo, k + len) == LsbBits(lo, k) + LsbBits(hi, len)
  {
    if k > 0 {
      var n := Shl(hi, k) + lo;
      assert n / 2 == Shl(hi, k - 1) + lo / 2 && n % 2 == lo % 2;
      LsbConcat(lo / 2, k - 1, hi, len);
      assert LsbBits(n, k + len) == [lo % 2 == 1] + (LsbBits(lo / 2, k - 1) + LsbBits(hi, len));
    }
  }

  function ZeroBits(n: nat): seq<bool> {
    seq(n, _ => false)
  }

  /** A number written in more bits than it needs. */
  lemma {:induction false} LsbPad(lo: nat, k: nat, n: nat)
    requires lo < Pow2(k)
    ensures LsbBits(lo, k + n) == LsbBits(lo, k) + ZeroBits(n)
  {
    if k > 0 {
      LsbPad(lo / 2, k - 1, n);
      Assoc([lo % 2 == 1], LsbBits(lo / 2, k - 1), ZeroBits(n));
    } else {
      LsbZero(n);
    }
  }

  lemma {:induction false} LsbZero(len: nat)
    ensures LsbBits(0, len) == ZeroBits(len)
  {
    if len > 0 { LsbZero(len - 1); }
  }

  // ---- most significant bit first (QR, base64) ----

  function MsbBits(n: nat, len: nat): (bits: seq<bool>)
    ensures |bits| == len
  {
    if len == 0 then [] else MsbBits(n / 2, len - 1) + [n % 2 == 1]
  }

  function MsbValue(bits: seq<bool>): nat {
    if bits == [] then 0 else 2 * MsbValue(bits[..|bits| - 1]) + if bits[|bits| - 1] then 1 else 0
  }

  lemma {:induction false} MsbRoundTrip(n: nat, len: nat)
    requires n < Pow2(len)
    ensures MsbValue(MsbBits(n, len)) == n
  {
    if len > 0 {
      MsbRoundTrip(n / 2, len - 1);
      assert MsbBits(n, len)[..len - 1] == MsbBits(n / 2, len - 1);
    }
  }

  lemma {:induction false} MsbValueBound(bits: seq<bool>)
    ensures MsbValue(bits) < Pow2(|bits|)
  {
    if bits != [] { MsbValueBound(bits[..|bits| - 1]); }
  }

  lemma {:induction false} MsbBitsOfValue(bits: seq<bool>)
    ensures MsbBits(MsbValue(bits), |bits|) == bits
  {
    if bits != [] {
      var init := bits[..|bits| - 1];
      MsbBitsOfValue(init);
      assert bits == init + [bits[|bits| - 1]];
    }
  }

  lemma {:induction false} MsbConcat(hi: nat, len: nat, lo: nat, k: nat)
    requires lo < Pow2(k)
    ensures MsbBits(Shl(hi, k) + lo, len + k) == MsbBits(hi, len) + MsbBits(lo, k)
  {
    if k > 0 {
      var n := Shl(hi, k) + lo;
      assert n / 2 == Shl(hi, k - 1) + lo / 2 && n % 2 == lo % 2;
      MsbConcat(hi, len, lo / 2, k - 1);
      assert MsbBits(n, len + k) == MsbBits(hi, len) + (MsbBits(lo / 2, k - 1) + [lo % 2 == 1]);
    }
  }

  // ---- the bitwise or of JavaScript, on non-negative numbers ----

  function Or(a: nat, b: nat): nat
    decreases a + b
  {
    if a == 0 then b
    else if b == 0 then a
    else 2 * Or(a / 2, b / 2) + if a % 2 == 1 || b % 2 == 1 then 1 else 0
  }

  /** With no bit in common, or is addition. */
  lemma {:induction false} OrDisjoint(hi: nat, k: nat, lo: nat)
    requires lo < Pow2(k)
    ensures Or(Shl(hi, k), lo) == Shl(hi, k) + lo
  {
    if k > 0 {
      OrDisjoint(hi, k - 1, lo / 2);
    }
  }
}
