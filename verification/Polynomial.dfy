/** Polynomials over GF(256), highest coefficient first, with leading zeros allowed. */
module Polynomial {
  import opened Prelude
  import opened Galois
  import opened GaloisField

  type Poly = seq<byte>

  function Sum(a: Poly, b: Poly): (p: Poly)
    requires |a| == |b|
    ensures |p| == |a|
  {
    seq(|a|, i requires 0 <= i < |a| => Add(a[i], b[i]))
  }

  function Scale(c: byte, a: Poly): (p: Poly)
    ensures |p| == |a|
  {
    seq(|a|, i requires 0 <= i < |a| => Mul(c, a[i]))
  }

  /** The product, one shifted multiple of g for each coefficient of q. */
  function Product(q: Poly, g: Poly): (p: Poly)
    requires |g| > 0
    ensures |p| == |q| + |g| - 1
  {
    if |q| == 0 then Zeros(|g| - 1)
    else
      var m := |q| - 1;
      Sum(Product(q[..m], g) + [0], Zeros(m) + Scale(q[m], g))
  }

  /** The value at x, by Horner's rule. */
  function Eval(p: Poly, x: byte): byte {
    if |p| == 0 then 0
    else
      var m := |p| - 1;
      Add(Mul(Eval(p[..m], x), x), p[m])
  }

  ghost predicate Multiple(p: Poly, g: Poly)
    requires |g| > 0
  {
    exists q: Poly :: |q| + |g| - 1 == |p| && Product(q, g) == p
  }

  // ---- evaluation is a ring homomorphism ----

  lemma EvalSnoc(p: Poly, c: byte, x: byte)
    ensures Eval(p + [c], x) == Add(Mul(Eval(p, x), x), c)
  {
    assert (p + [c])[..|p|] == p;
  }

  lemma {:induction false} EvalZeros(n: nat, x: byte)
    ensures Eval(Zeros(n), x) == 0
  {
    if n > 0 {
      EvalZeros(n - 1, x);
      assert Zeros(n)[..n - 1] == Zeros(n - 1);
      MulZero(x);
      AddZero(0);
    }
  }

  lemma {:induction false} EvalPad(n: nat, p: Poly, x: byte)
    ensures Eval(Zeros(n) + p, x) == Eval(p, x)
  {
    if |p| == 0 {
      assert Zeros(n) + p == Zeros(n);
      EvalZeros(n, x);
    } else {
      var m := |p| - 1;
      assert (Zeros(n) + p)[..n + m] == Zeros(n) + p[..m];
      EvalPad(n, p[..m], x);
    }
  }

  lemma AddSwap(a: byte, b: byte, c: byte, d: byte)
    ensures Add(Add(a, b), Add(c, d)) == Add(Add(a, c), Add(b, d))
  {
    Galois.XorSwap(a, b, c, d);
  }

  lemma {:induction false} EvalSum(a: Poly, b: Poly, x: byte)
    requires |a| == |b|
    ensures Eval(Sum(a, b), x) == Add(Eval(a, x), Eval(b, x))
  {
    if |a| == 0 {
      AddZero(0);
    } else {
      var m := |a| - 1;
      assert Sum(a, b)[..m] == Sum(a[..m], b[..m]);
      EvalSum(a[..m], b[..m], x);
      var ea, eb := Eval(a[..m], x), Eval(b[..m], x);
      MulAdd(x, ea, eb);
      AddSwap(Mul(ea, x), Mul(eb, x), a[m], b[m]);
    }
  }

  lemma {:induction false} EvalScale(c: byte, a: Poly, x: byte)
    ensures Eval(Scale(c, a), x) == Mul(c, Eval(a, x))
  {
    if |a| == 0 {
      MulRightOne(c);
    } else {
      var m := |a| - 1;
      assert Scale(c, a)[..m] == Scale(c, a[..m]);
      EvalScale(c, a[..m], x);
      MulAssoc(c, Eval(a[..m], x), x);
      MulAdd(c, Mul(Eval(a[..m], x), x), a[m]);
    }
  }

  lemma {:induction false} EvalProduct(q: Poly, g: Poly, x: byte)
    requires |g| > 0
    ensures Eval(Product(q, g), x) == Mul(Eval(q, x), Eval(g, x))
  {
    if |q| == 0 {
      EvalZeros(|g| - 1, x);
      MulZero(Eval(g, x));
    } else {
      var m := |q| - 1;
      var low, row := Product(q[..m], g), Scale(q[m], g);
      EvalProduct(q[..m], g, x);
      EvalSum(low + [0], Zeros(m) + row, x);
      EvalSnoc(low, 0, x);
      EvalPad(m, row, x);
      EvalScale(q[m], g, x);
      var eq, eg := Eval(q[..m], x), Eval(g, x);
      AddZero(Mul(Mul(eq, eg), x));
      MulAssoc(eq, eg, x);
      MulComm(eg, x);
      MulAssoc(eq, x, eg);
      MulAdd(eg, Mul(eq, x), q[m]);
    }
  }

  /** A root of the divisor is a root of every multiple. */
  lemma RootOfMultiple(p: Poly, g: Poly, x: byte)
    requires |g| > 0 && Multiple(p, g) && Eval(g, x) == 0
    ensures Eval(p, x) == 0
  {
    var q: Poly :| |q| + |g| - 1 == |p| && Product(q, g) == p;
    EvalProduct(q, g, x);
    MulRightOne(Eval(q, x));
  }

  // ---- multiples of one polynomial ----

  lemma SumZeros(a: Poly)
    ensures Sum(a, Zeros(|a|)) == a && Sum(Zeros(|a|), a) == a && Sum(a, a) == Zeros(|a|)
  {
    forall i | 0 <= i < |a|
      ensures Add(a[i], 0) == a[i] && Add(0, a[i]) == a[i] && Add(a[i], a[i]) == 0
    {
      AddZero(a[i]);
    }
  }

  lemma ScaleZero(a: Poly)
    ensures Scale(0, a) == Zeros(|a|)
  {
    forall i | 0 <= i < |a|
      ensures Mul(0, a[i]) == 0
    {
      MulZero(a[i]);
    }
  }

  lemma ProductSnoc(q: Poly, c: byte, g: Poly)
    requires |g| > 0
    ensures Product(q + [c], g) == Sum(Product(q, g) + [0], Zeros(|q|) + Scale(c, g))
  {
    assert (q + [c])[..|q|] == q;
  }

  lemma ZerosJoin(a: nat, b: nat)
    ensures Zeros(a) + Zeros(b) == Zeros(a + b)
  {
  }

  lemma {:induction false} ProductZeros(n: nat, g: Poly)
    requires |g| > 0
    ensures Product(Zeros(n), g) == Zeros(n + |g| - 1)
  {
    hide Mul, Add, Product, Sum, Scale;
    if n > 0 {
      ProductZeros(n - 1, g);
      ZerosJoin(n - 1, 1);
      ZerosJoin(n + |g| - 2, 1);
      ZerosJoin(n - 1, |g|);
      assert Zeros(1) == [0];
      ProductSnoc(Zeros(n - 1), 0, g);
      ScaleZero(g);
      SumZeros(Zeros(n + |g| - 1));
    } else {
      ProductEmpty(g);
    }
  }

  lemma ProductEmpty(g: Poly)
    requires |g| > 0
    ensures Product(Zeros(0), g) == Zeros(|g| - 1)
  {
  }

  /** Multiplying by one shifted coefficient places one multiple of g. */
  lemma {:induction false} ProductRow(left: nat, c: byte, right: nat, g: Poly)
    requires |g| > 0
    ensures Product(Zeros(left) + [c] + Zeros(right), g) == Zeros(left) + Scale(c, g) + Zeros(right)
  {
    var row := Zeros(left) + Scale(c, g);
    if right == 0 {
      assert Zeros(left) + [c] + Zeros(right) == Zeros(left) + [c];
      ProductSnoc(Zeros(left), c, g);
      ProductZeros(left, g);
      assert Zeros(left + |g| - 1) + [0] == Zeros(|row|);
      SumZeros(row);
      assert row + Zeros(0) == row;
    } else {
      var q := Zeros(left) + [c] + Zeros(right - 1);
      ProductRow(left, c, right - 1, g);
      assert Zeros(left) + [c] + Zeros(right) == q + [0];
      ProductSnoc(q, 0, g);
      ScaleZero(g);
      var p := row + Zeros(right);
      assert Product(q, g) + [0] == p;
      assert Zeros(|q|) + Zeros(|g|) == Zeros(|p|);
      SumZeros(p);
    }
  }

  lemma SumSwap(a: Poly, b: Poly, c: Poly, d: Poly)
    requires |a| == |b| == |c| == |d|
    ensures Sum(Sum(a, b), Sum(c, d)) == Sum(Sum(a, c), Sum(b, d))
  {
    forall i | 0 <= i < |a|
      ensures Sum(Sum(a, b), Sum(c, d))[i] == Sum(Sum(a, c), Sum(b, d))[i]
    {
      AddSwap(a[i], b[i], c[i], d[i]);
    }
  }

  lemma SumAssoc(a: Poly, b: Poly, c: Poly)
    requires |a| == |b| == |c|
    ensures Sum(Sum(a, b), c) == Sum(a, Sum(b, c)) && Sum(a, b) == Sum(b, a)
  {
    forall i | 0 <= i < |a|
      ensures Sum(Sum(a, b), c)[i] == Sum(a, Sum(b, c))[i] && Sum(a, b)[i] == Sum(b, a)[i]
    {
      AddLaws(a[i], b[i], c[i]);
    }
  }

  lemma ScaleSum(a: byte, b: byte, g: Poly)
    ensures Scale(Add(a, b), g) == Sum(Scale(a, g), Scale(b, g))
  {
    forall i | 0 <= i < |g|
      ensures Mul(Add(a, b), g[i]) == Add(Mul(a, g[i]), Mul(b, g[i]))
    {
      MulAdd(g[i], a, b);
    }
  }

  lemma {:induction false} ProductSum(a: Poly, b: Poly, g: Poly)
    requires |g| > 0 && |a| == |b|
    ensures Product(Sum(a, b), g) == Sum(Product(a, g), Product(b, g))
  {
    if |a| == 0 {
      SumZeros(Zeros(|g| - 1));
    } else {
      var m := |a| - 1;
      ProductSum(a[..m], b[..m], g);
      assert Sum(a, b)[..m] == Sum(a[..m], b[..m]);
      ScaleSum(a[m], b[m], g);
      SumParts(Product(a[..m], g), Product(b[..m], g), m, Scale(a[m], g), Scale(b[m], g));
    }
  }

  lemma SumParts(p: Poly, q: Poly, m: nat, r: Poly, s: Poly)
    requires |p| == |q| && |r| == |s| && |p| + 1 == m + |r|
    ensures Sum(Sum(p, q) + [0], Zeros(m) + Sum(r, s)) == Sum(Sum(p + [0], Zeros(m) + r), Sum(q + [0], Zeros(m) + s))
  {
    AddZero(0);
    assert Sum(p, q) + [0] == Sum(p + [0], q + [0]);
    assert Zeros(m) + Sum(r, s) == Sum(Zeros(m) + r, Zeros(m) + s);
    SumSwap(p + [0], q + [0], Zeros(m) + r, Zeros(m) + s);
  }

  lemma MultipleSum(a: Poly, b: Poly, g: Poly)
    requires |g| > 0 && |a| == |b| && Multiple(a, g) && Multiple(b, g)
    ensures Multiple(Sum(a, b), g)
  {
    var q: Poly :| |q| + |g| - 1 == |a| && Product(q, g) == a;
    var r: Poly :| |r| + |g| - 1 == |b| && Product(r, g) == b;
    ProductSum(q, r, g);
    assert |Sum(q, r)| + |g| - 1 == |Sum(a, b)|;
  }

  lemma MultipleRow(left: nat, c: byte, right: nat, g: Poly)
    requires |g| > 0
    ensures Multiple(Zeros(left) + Scale(c, g) + Zeros(right), g)
  {
    ProductRow(left, c, right, g);
    var q := Zeros(left) + [c] + Zeros(right);
    assert |q| + |g| - 1 == |Zeros(left) + Scale(c, g) + Zeros(right)|;
  }

  lemma MultipleZeros(n: nat, g: Poly)
    requires 0 < |g| <= n + 1
    ensures Multiple(Zeros(n), g)
  {
    ProductZeros(n + 1 - |g|, g);
    assert |Zeros(n + 1 - |g|)| + |g| - 1 == |Zeros(n)|;
  }

  /** The first nonzero coefficient of q survives in the product. */
  lemma {:induction false} ProductLead(q: Poly, g: Poly, t: nat)
    requires |g| > 0 && t < |q| && q[..t] == Zeros(t)
    ensures Product(q, g)[t] == Mul(q[t], g[0])
  {
    var m := |q| - 1;
    if t == m {
      ProductZeros(t, g);
      AddZero(Mul(q[t], g[0]));
    } else {
      assert q[..m][..t] == q[..t];
      ProductLead(q[..m], g, t);
      AddZero(Mul(q[t], g[0]));
    }
  }

  lemma FirstNonzero(q: Poly) returns (t: nat)
    ensures t <= |q| && q[..t] == Zeros(t)
    ensures t < |q| ==> q[t] != 0
  {
    t := 0;
    while t < |q| && q[t] == 0
      invariant t <= |q| && forall i :: 0 <= i < t ==> q[i] == 0
    {
      t := t + 1;
    }
  }

  /** A multiple of g that is below g in degree is zero. */
  lemma SmallMultiple(p: Poly, g: Poly)
    requires |g| > 0 && g[0] != 0 && Multiple(p, g)
    requires p[..|p| - (|g| - 1)] == Zeros(|p| - (|g| - 1))
    ensures p == Zeros(|p|)
  {
    var q: Poly :| |q| + |g| - 1 == |p| && Product(q, g) == p;
    var t := FirstNonzero(q);
    if t < |q| {
      assert p[..|q|][t] == 0;
      ProductLead(q, g, t);
      MulNonzero(q[t], g[0]);
    } else {
      assert q == Zeros(|q|);
      ProductZeros(|q|, g);
    }
  }
}
