/** The generator polynomials of Reed-Solomon codes: their roots, and which of their coefficients vanish. */
module Generator {
  import opened Prelude
  import opened Galois
  import opened GaloisField
  import opened Polynomial

  /** (x + a^0)(x + a^1)...(x + a^(n-1)), for a the generator of the field. */
  function GeneratorPoly(n: nat): (g: Poly)
    ensures |g| == n + 1
  {
    if n == 0 then [1] else Product(GeneratorPoly(n - 1), [1, Alpha(n - 1)])
  }

  lemma EvalLinear(a: byte, x: byte)
    ensures Eval([1, a], x) == Add(x, a)
  {
    assert [1, a] == [1] + [a] && [1] == [] + [1];
    EvalSnoc([], 1, x);
    EvalSnoc([1], a, x);
    MulZero(x);
    MulOne(x);
    AddZero(1);
  }

  lemma {:induction false} GeneratorRoots(n: nat, i: nat)
    requires i < n
    ensures Eval(GeneratorPoly(n), Alpha(i)) == 0
  {
    hide Mul, Alpha, Add, Product, Eval;
    var x, a := Alpha(i), Alpha(n - 1);
    EvalProduct(GeneratorPoly(n - 1), [1, a], x);
    EvalLinear(a, x);
    if i == n - 1 {
      AddZero(x);
      MulRightOne(Eval(GeneratorPoly(n - 1), x));
    } else {
      GeneratorRoots(n - 1, i);
      MulZero(Add(x, a));
    }
  }

  // ---- coefficients ----

  /** The coefficient of x^(n-k) in the n-th generator. */
  function Coefficient(n: nat, k: nat): byte {
    if k == 0 then 1
    else if k > n then 0
    else Add(Coefficient(n - 1, k), Mul(Alpha(n - 1), Coefficient(n - 1, k - 1)))
  }

  lemma {:induction false} ProductLinear(p: Poly, a: byte)
    ensures Product(p, [1, a]) == Sum(p + [0], [0] + Scale(a, p))
  {
    hide Mul, Add;
    if |p| == 0 {
      AddZero(0);
      assert Product(p, [1, a]) == [0];
    } else {
      var m := |p| - 1;
      ProductLinear(p[..m], a);
      var low := Product(p[..m], [1, a]);
      MulRightOne(p[m]);
      MulComm(p[m], a);
      assert Scale(p[m], [1, a]) == [p[m], Mul(a, p[m])];
      forall i | 0 <= i < m + 2
        ensures Product(p, [1, a])[i] == Sum(p + [0], [0] + Scale(a, p))[i]
      {
        assert Product(p, [1, a])[i] == Add((low + [0])[i], (Zeros(m) + [p[m], Mul(a, p[m])])[i]);
        if i < m {
          AddZero(low[i]);
        } else if i == m {
          var left: byte := if i == 0 then 0 else Mul(a, p[i - 1]);
          AddZero(left);
          AddLaws(left, p[m], 0);
        } else {
          AddZero(Mul(a, p[m]));
        }
      }
    }
  }

  lemma {:induction false} GeneratorCoefficient(n: nat, k: nat)
    requires k <= n
    ensures GeneratorPoly(n)[k] == Coefficient(n, k)
  {
    hide Mul, Alpha, Add, Product;
    if n > 0 {
      var g, a := GeneratorPoly(n - 1), Alpha(n - 1);
      ProductLinear(g, a);
      if k < n { GeneratorCoefficient(n - 1, k); }
      if k > 0 { GeneratorCoefficient(n - 1, k - 1); }
      AddZero(1);
    }
  }

  lemma CancelOuter(s: byte, p: byte, q: byte)
    ensures Add(Add(s, p), Add(q, s)) == Add(p, q)
  {
    AddLaws(s, p, 0);
    AddSwap(p, s, q, s);
    AddZero(s);
    AddZero(Add(p, q));
  }

  lemma TimesSuccessor(a: byte, b: byte, one: byte)
    requires one == 1
    ensures Mul(a, Add(b, one)) == Add(Mul(a, b), a)
  {
    MulAdd(a, b, one);
    MulRightOne(a);
  }

  /** One side of the step of Ratio, on the field elements alone: t1 is t + 1, r1 is r + 1. */
  lemma RatioLeft(b: byte, c: byte, p: byte, s: byte, t1: byte, st: byte, pr1: byte)
    requires Mul(c, t1) == Mul(b, pr1) && pr1 == Add(s, p) && Mul(s, t1) == Add(st, s)
    ensures Mul(Add(c, Mul(s, b)), t1) == Mul(b, Add(p, st))
  {
    MulAdd(t1, c, Mul(s, b));
    MulComm(s, b);
    MulAssoc(b, s, t1);
    MulAdd(b, pr1, Add(st, s));
    CancelOuter(s, p, st);
  }

  lemma SecondSummand(s: byte, d: byte, x: byte, q: byte, xs: byte, dq: byte)
    requires dq == Mul(d, q) && xs == Mul(x, s)
    ensures Mul(Mul(s, d), Mul(x, q)) == Mul(xs, dq)
  {
    MulAssoc(s, d, Mul(x, q));
    MulAssoc(d, x, q);
    MulComm(d, x);
    MulAssoc(x, d, q);
    MulAssoc(s, x, dq);
    MulComm(s, x);
  }

  /** The other side: p1 is p + 1, wv1 is w * (v + 1), p is x * w and xs is x * s. */
  lemma RatioRight(b: byte, d: byte, p: byte, wv1: byte, s: byte, x: byte, xs: byte, p1: byte, xsp: byte)
    requires Mul(b, p1) == Mul(d, wv1) && Mul(x, wv1) == Add(xs, p)
    requires xs == Mul(x, s) && Mul(xs, p1) == Add(xsp, xs)
    ensures Mul(Add(b, Mul(s, d)), Mul(x, wv1)) == Mul(b, Add(p, xsp))
  {
    MulAdd(Add(xs, p), b, Mul(s, d));
    SecondSummand(s, d, x, wv1, xs, Mul(b, p1));
    MulComm(xs, Mul(b, p1));
    MulAssoc(b, p1, xs);
    MulComm(p1, xs);
    MulAdd(b, Add(xs, p), Add(xsp, xs));
    CancelOuter(xs, p, xsp);
  }

  /** The power of the generator at n, plus 1. */
  function AlphaPlusOne(n: nat): byte {
    Add(Alpha(n), 1)
  }

  lemma TimesAlphaPlusOne(i: nat, j: nat)
    ensures Mul(Alpha(i), AlphaPlusOne(j)) == Add(Alpha(i + j), Alpha(i))
  {
    TimesSuccessor(Alpha(i), Alpha(j), 1);
    AlphaAdd(i, j);
  }

  /** The quotient of neighbouring coefficients, as for Gaussian binomials. */
  ghost predicate RatioHolds(n: nat, k: nat)
    requires 1 <= k <= n + 1
  {
    Mul(Coefficient(n, k), AlphaPlusOne(k)) == Mul(Coefficient(n, k - 1), Mul(Alpha(k - 1), AlphaPlusOne(n + 1 - k)))
  }

  lemma {:induction false} Ratio(n: nat, k: nat)
    requires 1 <= k <= n + 1
    ensures RatioHolds(n, k)
  {
    hide Coefficient, Mul, Alpha, Add;
    if k == n + 1 {
      RatioAtEnd(n);
    } else {
      Ratio(n - 1, k);
      RatioStepLeft(n, k);
      if k == 1 {
        RatioAtStart(n);
      } else {
        Ratio(n - 1, k - 1);
        RatioStepRight(n, k);
      }
    }
  }

  lemma RatioAtEnd(n: nat)
    ensures RatioHolds(n, n + 1)
  {
    AddZero(1);
    MulZero(AlphaPlusOne(n + 1));
    MulRightOne(Alpha(n));
    MulRightOne(Coefficient(n, n));
  }

  lemma RatioStepLeft(n: nat, k: nat)
    requires 1 <= k <= n && RatioHolds(n - 1, k)
    ensures Mul(Coefficient(n, k), AlphaPlusOne(k)) ==
            Mul(Coefficient(n - 1, k - 1), Add(Alpha(k - 1), Alpha(n - 1 + k)))
  {
    hide Mul, Alpha, Add;
    TimesAlphaPlusOne(k - 1, n - k);
    TimesAlphaPlusOne(n - 1, k);
    RatioLeft(Coefficient(n - 1, k - 1), Coefficient(n - 1, k), Alpha(k - 1), Alpha(n - 1), AlphaPlusOne(k),
              Alpha(n - 1 + k), Mul(Alpha(k - 1), AlphaPlusOne(n - k)));
  }

  lemma RatioAtStart(n: nat)
    requires n >= 1
    ensures Mul(Coefficient(n, 0), Mul(Alpha(0), AlphaPlusOne(n))) ==
            Mul(Coefficient(n - 1, 0), Add(Alpha(0), Alpha(n)))
  {
    MulOne(AlphaPlusOne(n));
    AddLaws(Alpha(n), 1, 0);
  }

  lemma RatioStepRight(n: nat, k: nat)
    requires 2 <= k <= n && RatioHolds(n - 1, k - 1)
    ensures Mul(Coefficient(n, k - 1), Mul(Alpha(k - 1), AlphaPlusOne(n + 1 - k))) ==
            Mul(Coefficient(n - 1, k - 1), Add(Alpha(k - 1), Alpha(n - 1 + k)))
  {
    hide Mul, Alpha, Add;
    var v1 := AlphaPlusOne(n + 1 - k);
    AlphaAdd(1, k - 2);
    AlphaAdd(1, n - 1);
    MulAssoc(Alpha(1), Alpha(k - 2), v1);
    TimesAlphaPlusOne(k - 1, n + 1 - k);
    TimesAlphaPlusOne(n, k - 1);
    RatioRight(Coefficient(n - 1, k - 1), Coefficient(n - 1, k - 2), Alpha(k - 1), Mul(Alpha(k - 2), v1),
               Alpha(n - 1), Alpha(1), Alpha(n), AlphaPlusOne(k - 1), Alpha(n - 1 + k));
  }

  lemma AlphaStart()
    ensures Alpha(0) == 1
  {
  }

  lemma AlphaPlusOneZero(n: nat)
    requires 0 < n <= 255
    ensures AlphaPlusOne(n) == 0 <==> n == 255
  {
    hide Mul, Alpha, Add;
    AlphaPeriod(0);
    AlphaStart();
    AddZero(1);
    if n < 255 {
      Order(n);
      if AlphaPlusOne(n) == 0 { AddSolve(Alpha(n), 1); }
    }
  }

  /** Up to degree 254 no coefficient vanishes, so every logarithm the products ask for exists. */
  lemma {:induction false} CoefficientNonzero(n: nat, k: nat)
    requires k <= n <= 254
    ensures Coefficient(n, k) != 0
  {
    if k > 0 {
      hide Mul, Alpha, Add;
      CoefficientNonzero(n, k - 1);
      Ratio(n, k);
      var e := AlphaPlusOne(n + 1 - k);
      AlphaPlusOneZero(n + 1 - k);
      AlphaNonzero(k - 1);
      MulNonzero(Alpha(k - 1), e);
      MulNonzero(Coefficient(n, k - 1), Mul(Alpha(k - 1), e));
      MulNonzero(Coefficient(n, k), AlphaPlusOne(k));
    }
  }

  /** Degree 255 is x^255 + 1: its second coefficient vanishes. */
  lemma CoefficientVanishes(n: nat)
    requires n == 255
    ensures Coefficient(n, 1) == 0
  {
    hide Mul, Alpha, Add;
    AlphaStart();
    Ratio(n, 1);
    AlphaPlusOneZero(n);
    AlphaPlusOneZero(1);
    MulRightOne(Alpha(0));
    MulRightOne(Coefficient(n, 0));
    MulNonzero(Coefficient(n, 1), AlphaPlusOne(1));
  }
}
