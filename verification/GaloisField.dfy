/** The generator reaches every nonzero byte, so products are sums of logarithms; the tables of QRMath. */
module GaloisField {
  import opened Prelude
  import opened Bits
  import opened Galois

  lemma AddZero(a: byte)
    ensures Add(a, 0) == a && Add(0, a) == a && Add(a, a) == 0
  {
    XorZero(a);
    XorSelf(a);
  }

  lemma AddSolve(a: byte, b: byte)
    requires Add(a, b) == 0
    ensures a == b
  {
    XorAssoc(a, b, b);
    XorSelf(b);
    XorZero(a);
    XorZero(b);
  }

  /** Multiplication by x loses nothing. */
  lemma XZero(a: byte)
    requires X(a) == 0
    ensures a == 0
  {
    if a >= 128 { XorHalves(2 * a, MODULUS); }
  }

  lemma XInjective(a: byte, b: byte)
    requires X(a) == X(b)
    ensures a == b
  {
    XLinear(a, b);
    AddZero(X(a));
    XZero(Add(a, b));
    AddSolve(a, b);
  }

  lemma {:induction false} AlphaNonzero(n: nat)
    ensures Alpha(n) != 0
  {
    if n > 0 {
      AlphaNonzero(n - 1);
      if X(Alpha(n - 1)) == 0 { XZero(Alpha(n - 1)); }
    }
  }

  lemma {:induction false} AlphaCancel(i: nat, d: nat)
    requires Alpha(i + d) == Alpha(i)
    ensures Alpha(d) == 1
  {
    if i > 0 {
      XInjective(Alpha(i + d - 1), Alpha(i - 1));
      AlphaCancel(i - 1, d);
    }
  }

  lemma MulRightOne(a: byte)
    ensures Mul(a, 1) == a && Mul(a, 0) == 0
  {
    MulStep(a, 1);
    XorZero(a);
  }

  lemma AlphaPeriod(n: nat)
    ensures Alpha(n + 255) == Alpha(n)
  {
    var m := 25;
    AlphaTo255(m);
    AlphaAdd(n, 10 * m + 5);
    MulRightOne(Alpha(n));
  }

  /** The exponents at which the power is 1 are closed under division with rest. */
  lemma {:induction false} OrderRest(n: nat, d: nat) returns (q: nat, r: nat)
    requires d > 0 && Alpha(n) == 1 && Alpha(d) == 1
    ensures n == d * q + r && r < d && Alpha(r) == 1
    decreases n
  {
    if n >= d {
      AlphaAdd(n - d, d);
      MulRightOne(Alpha(n - d));
      q, r := OrderRest(n - d, d);
      q := q + 1;
      assert d * q == d * (q - 1) + d;
    } else {
      q, r := 0, n;
    }
  }

  lemma {:induction false} OrderMultiple(d: nat, k: nat)
    requires Alpha(d) == 1
    ensures Alpha(d * k) == 1
  {
    if k > 0 {
      OrderMultiple(d, k - 1);
      AlphaAdd(d * (k - 1), d);
      MulRightOne(1);
      assert d * k == d * (k - 1) + d;
    }
  }

  /** 255 is 3 * 5 * 17, so a proper divisor misses one of the three primes. */
  lemma ProperDivisor(d: nat, q: nat)
    requires d * q == 255 && d < 255
    ensures d == 1 || d == 3 || d == 5 || d == 15 || d == 17 || d == 51 || d == 85
  {
    if q >= 16 {
      SmallFactor(d, q);
    } else {
      SmallFactor(q, d);
    }
  }

  lemma SmallFactor(d: nat, q: nat)
    requires d * q == 255 && d <= 15
    ensures (d == 1 && q == 255) || (d == 3 && q == 85) || (d == 5 && q == 51) || (d == 15 && q == 17)
  {
    if d == 1 || d == 3 || d == 5 || d == 15 {
    } else if d == 0 {
    } else if d == 2 {
    } else if d == 4 {
    } else if d == 6 {
    } else if d == 7 {
    } else if d == 8 {
    } else if d == 9 {
    } else if d == 10 {
    } else if d == 11 {
    } else if d == 12 {
    } else if d == 13 {
    } else {
      assert false;
    }
  }

  lemma Alpha51(m: nat)
    requires m == 25
    ensures Alpha(2 * m + 1) == 10
  {
    AlphaTo50(m);
  }

  lemma Alpha85(n: nat, m: nat)
    requires n == 85 && m == 25
    ensures Alpha(n) != 1
  {
    if Alpha(n) == 1 {
      AlphaTo100(m);
      AlphaTo25();
      AlphaAdd(n, 15);
      MulOne(38);
    }
  }

  /** No divisor of 255 below 255 is the order. */
  lemma NoProperDivisor(d: nat, q: nat)
    requires d * q == 255 && d < 255
    ensures Alpha(d) != 1
  {
    ProperDivisor(d, q);
    if Alpha(d) == 1 {
      if d == 85 {
        Alpha85(d, 25);
      } else if d == 17 || d == 51 {
        OrderMultiple(d, if d == 17 then 3 else 1);
        Alpha51(25);
      } else {
        OrderMultiple(d, if d == 1 then 15 else if d == 3 then 5 else if d == 5 then 3 else 1);
        AlphaTo25();
      }
    }
  }

  /** The order of the generator is exactly 255. */
  lemma {:induction false} Order(d: nat)
    requires 0 < d < 255
    ensures Alpha(d) != 1
  {
    if Alpha(d) == 1 {
      AlphaPeriod(0);
      var n := 255;
      var q, r := OrderRest(n, d);
      if r == 0 {
        NoProperDivisor(d, q);
      } else {
        Order(r);
      }
    }
  }

  lemma AlphaInjective(i: nat, j: nat)
    requires i < j < 255
    ensures Alpha(i) != Alpha(j)
  {
    if Alpha(i) == Alpha(j) {
      AlphaCancel(i, j - i);
      Order(j - i);
    }
  }

  // ---- every nonzero byte is a power, and its logarithm ----

  function Powers(n: nat): set<int> {
    set i: nat | i < n :: Alpha(i) as int
  }

  lemma {:induction false} PowersCount(n: nat)
    requires n <= 255
    ensures |Powers(n)| == n
  {
    if n > 0 {
      PowersCount(n - 1);
      assert Powers(n) == Powers(n - 1) + {Alpha(n - 1) as int};
      forall i: nat | i < n - 1
        ensures Alpha(i) != Alpha(n - 1)
      {
        AlphaInjective(i, n - 1);
      }
    }
  }

  function Positives(n: nat): set<int> {
    if n == 0 then {} else Positives(n - 1) + {n as int}
  }

  lemma {:induction false} PositivesCount(n: nat)
    ensures |Positives(n)| == n
    ensures forall x: int :: x in Positives(n) <==> 1 <= x <= n
  {
    if n > 0 { PositivesCount(n - 1); }
  }

  lemma SameSize<T>(a: set<T>, b: set<T>)
    requires a <= b && |a| == |b|
    ensures a == b
  {
    assert b == a + (b - a);
    assert |b - a| == 0;
  }

  lemma AlphaSurjective(a: byte)
    requires a != 0
    ensures exists i: nat :: i < 255 && Alpha(i) == a
  {
    var n := 255;
    PowersCount(n);
    PositivesCount(n);
    forall i: nat | i < n
      ensures Alpha(i) as int in Positives(n)
    {
      AlphaNonzero(i);
    }
    SameSize(Powers(n), Positives(n));
    assert a as int in Positives(n);
  }

  ghost function Log(a: byte): (i: nat)
    requires a != 0
    ensures i < 255 && Alpha(i) == a
  {
    AlphaSurjective(a);
    var i: nat :| i < 255 && Alpha(i) == a;
    i
  }

  /** A power determines its exponent modulo 255. */
  lemma LogAlpha(i: nat)
    requires i < 255
    ensures Alpha(i) != 0 && Log(Alpha(i)) == i
  {
    AlphaNonzero(i);
    var j := Log(Alpha(i));
    if i < j {
      AlphaInjective(i, j);
    } else if j < i {
      AlphaInjective(j, i);
    }
  }

  // ---- the laws of the field ----

  lemma MulComm(a: byte, b: byte)
    ensures Mul(a, b) == Mul(b, a)
  {
    MulZero(a);
    MulZero(b);
    if a != 0 && b != 0 {
      AlphaAdd(Log(a), Log(b));
      AlphaAdd(Log(b), Log(a));
    }
  }

  lemma MulNonzero(a: byte, b: byte)
    ensures Mul(a, b) == 0 <==> a == 0 || b == 0
  {
    MulZero(b);
    if a != 0 && b != 0 {
      AlphaAdd(Log(a), Log(b));
      AlphaNonzero(Log(a) + Log(b));
    }
  }

  lemma MulAssoc(a: byte, b: byte, c: byte)
    ensures Mul(Mul(a, b), c) == Mul(a, Mul(b, c))
  {
    hide Mul, Alpha;
    MulNonzero(a, b);
    MulNonzero(b, c);
    MulNonzero(Mul(a, b), c);
    MulNonzero(a, Mul(b, c));
    if a != 0 && b != 0 && c != 0 {
      var i, j, k := Log(a), Log(b), Log(c);
      AlphaAdd(i, j);
      AlphaAdd(j, k);
      AlphaAdd(i + j, k);
      AlphaAdd(i, j + k);
    }
  }

  lemma MulAdd(a: byte, b: byte, c: byte)
    ensures Mul(a, Add(b, c)) == Add(Mul(a, b), Mul(a, c))
    ensures Mul(Add(b, c), a) == Add(Mul(b, a), Mul(c, a))
  {
    MulDistributes(a, b, c);
    MulComm(a, Add(b, c));
    MulComm(a, b);
    MulComm(a, c);
  }

  lemma AddLaws(a: byte, b: byte, c: byte)
    ensures Add(a, b) == Add(b, a)
    ensures Add(Add(a, b), c) == Add(a, Add(b, c))
  {
    XorComm(a, b);
    XorAssoc(a, b, c);
  }
}
