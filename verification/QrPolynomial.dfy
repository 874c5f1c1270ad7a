/** The loops of qrPolynomial in win/qrcodegen.js, over the tables of QRMath. */
module QrPolynomial {
  import opened Prelude
  import opened Galois
  import opened GaloisField
  import opened Polynomial
  import opened Generator
  import opened ReedSolomon
  import opened QrMath

  /** qrPolynomial(num, shift): a new array without the leading zeros and with shift unassigned slots. */
  method Make(num: seq<Slot>, shift: nat) returns (p: seq<Slot>)
    ensures p == Strip(num) + Holes(shift)
  {
    var offset := 0;
    while offset < |num| && num[offset] == Some(0)
      invariant offset <= |num| && Strip(num) == Strip(num[offset..])
    {
      offset := offset + 1;
    }
    assert Strip(num[offset..]) == num[offset..];
    p := Copy(num, offset, shift);
  }

  method Copy(num: seq<Slot>, offset: nat, shift: nat) returns (p: seq<Slot>)
    requires offset <= |num|
    ensures p == num[offset..] + Holes(shift)
  {
    var a := new Slot[|num| - offset + shift](_ => None);
    for i := 0 to |num| - offset
      invariant forall k :: 0 <= k < i ==> a[k] == num[k + offset]
      invariant forall k :: i <= k < a.Length ==> a[k] == None
    {
      a[i] := num[i + offset];
    }
    p := a[..];
  }

  /** gexp(glog(a) + glog(b)) on slots: a hole makes the sum NaN and the power undefined. */
  method TimesByLogs(math: Tables, a: Slot, b: Slot) returns (r: Result<Slot, int>)
    requires math.Valid()
    ensures r.Err? <==> a == Some(0) || b == Some(0)
    ensures r.Err? ==> r.error == 0
    ensures r.Ok? ==> Number(r.value) == Mul(Number(a), Number(b))
  {
    hide Mul, AlphaOf;
    var la := math.Glog(a);
    if la.Err? { return Err(la.error); }
    var lb := math.Glog(b);
    if lb.Err? { return Err(lb.error); }
    MulNonzero(Number(a), Number(b));
    if la.value.None? || lb.value.None? { return Ok(None); }
    LogProduct(a.value, b.value);
    var g := math.Gexp(la.value.value + lb.value.value);
    r := Ok(Some(g));
  }

  /** num[i + j] ^= ... for the columns below j of row i. */
  ghost function RowSoFar(num: seq<Slot>, i: nat, c: byte, e: seq<Slot>, j: nat): (r: seq<Slot>)
    requires j <= |e| && i + |e| <= |num|
    ensures |r| == |num|
  {
    seq(|num|, k requires 0 <= k < |num| =>
      if i <= k < i + j then Some(Add(Number(num[k]), Mul(c, Number(e[k - i])))) else num[k])
  }

  /** What num holds after the rows below i: assigned up to the last column reached. */
  ghost predicate RowsDone(num: seq<Slot>, a: Poly, e: Poly, i: nat)
    requires |e| > 0 && i <= |a|
  {
    && |num| == |a| + |e| - 1
    && Numbers(num) == Product(a[..i], e) + Zeros(|a| - i)
    && (forall k :: 0 <= k < (if i == 0 then 0 else i + |e| - 1) ==> num[k].Some?)
  }

  lemma RowStep(num: seq<Slot>, a: Poly, e: seq<Slot>, i: nat)
    requires |e| > 0 && i < |a| && RowsDone(num, a, Numbers(e), i)
    ensures RowsDone(RowSoFar(num, i, a[i], e, |e|), a, Numbers(e), i + 1)
  {
    hide Mul, Add;
    var g := Numbers(e);
    var next := RowSoFar(num, i, a[i], e, |e|);
    var low := Product(a[..i], g);
    assert a[..i + 1] == a[..i] + [a[i]];
    ProductSnoc(a[..i], a[i], g);
    forall k | 0 <= k < |num|
      ensures Numbers(next)[k] == (Product(a[..i + 1], g) + Zeros(|a| - i - 1))[k]
    {
      var was := (low + Zeros(|a| - i))[k];
      assert Number(num[k]) == Numbers(num)[k] == was;
      if k < i + |e| {
        assert was == (low + [0])[k];
        AddZero(was);
      }
    }
  }

  lemma RowsStart(n: nat, a: Poly, e: Poly)
    requires |e| > 0 && n == |a| + |e| - 1
    ensures RowsDone(Holes(n), a, e, 0)
  {
    assert a[..0] == [];
    assert Zeros(|e| - 1) + Zeros(|a|) == Zeros(n);
  }

  /** One row of multiply. */
  method MultiplyRow(math: Tables, num: array<Slot>, i: nat, c: Slot, e: seq<Slot>) returns (r: Result<(), int>)
    requires math.Valid() && i + |e| <= num.Length
    requires num as object != math.expTable && num as object != math.logTable
    modifies num
    ensures r.Err? <==> e != [] && (c == Some(0) || HasZero(e))
    ensures r.Err? ==> r.error == 0
    ensures r.Ok? ==> num[..] == RowSoFar(old(num[..]), i, Number(c), e, |e|)
  {
    hide Mul, Add;
    ghost var was := num[..];
    var j := 0;
    while j < |e|
      invariant j <= |e| && math.Valid()
      invariant Some(0) !in e[..j]
      invariant j > 0 ==> c != Some(0)
      invariant num[..] == RowSoFar(was, i, Number(c), e, j)
    {
      var v := TimesByLogs(math, c, e[j]);
      if v.Err? { return Err(v.error); }
      num[i + j] := Some(Add(Number(num[i + j]), Number(v.value)));
      j := j + 1;
    }
    assert e == e[..j];
    r := Ok(());
  }

  /** What multiply throws: glog of 0, or the array of length -1 for two polynomials without coefficients. */
  datatype Fault = NoLog(n: int) | RangeError

  /** _this.multiply(e): the product, unless a coefficient is 0 and glog throws. With nothing to multiply there are
      only unassigned slots. */
  method Multiply(math: Tables, a: seq<Slot>, e: seq<Slot>) returns (r: Result<seq<Slot>, Fault>)
    requires math.Valid()
    ensures a == [] && e == [] <==> r == Err(RangeError)
    ensures (a == []) != (e == []) ==> r == Ok(Holes(|a| + |e| - 1))
    ensures a != [] && e != [] && (HasZero(a) || HasZero(e)) ==> r == Err(NoLog(0))
    ensures a != [] && e != [] && !HasZero(a) && !HasZero(e) ==> r == Ok(Strip(Slots(Product(Numbers(a), Numbers(e)))))
  {
    hide Mul, Add, Product, RowsDone;
    if |a| + |e| == 0 { return Err(RangeError); }
    var num := new Slot[|a| + |e| - 1](_ => None);
    var i := 0;
    assert num[..] == Holes(num.Length);
    if e != [] { RowsStart(num.Length, Numbers(a), Numbers(e)); }
    while i < |a|
      invariant i <= |a| && math.Valid()
      invariant Some(0) !in a[..i] || e == []
      invariant i > 0 ==> !HasZero(e)
      invariant i == 0 || e == [] ==> num[..] == Holes(num.Length)
      invariant e != [] ==> RowsDone(num[..], Numbers(a), Numbers(e), i)
    {
      if e != [] { RowStep(num[..], Numbers(a), e, i); }
      ghost var was := num[..];
      var row := MultiplyRow(math, num, i, a[i], e);
      if row.Err? { return Err(NoLog(row.error)); }
      if e == [] { assert num[..] == was; }
      i := i + 1;
    }
    assert a[..i] == a;
    var s := Make(num[..], 0);
    if a != [] && e != [] {
      RowsEnd(num[..], Numbers(a), Numbers(e));
    } else {
      assert num[..] == Holes(num.Length);
      assert Strip(num[..]) == num[..];
    }
    assert s == Strip(num[..]);
    r := Ok(s);
  }

  lemma RowsEnd(num: seq<Slot>, a: Poly, e: Poly)
    requires |e| > 0 && |a| > 0 && RowsDone(num, a, e, |a|)
    ensures num == Slots(Product(a, e))
  {
    hide Product;
    assert a[..|a|] == a;
    assert Product(a, e) + Zeros(0) == Product(a, e);
  }

  /** QRUtil.getErrorCorrectPolynomial: the generator, as long as no factor but the last has a coefficient 0. */
  method ErrorCorrectPolynomial(math: Tables, n: nat) returns (r: Result<seq<Slot>, int>)
    requires math.Valid()
    ensures n <= 255 ==> r == Ok(Slots(GeneratorPoly(n)))
    ensures n > 255 ==> r == Err(0)
  {
    hide Mul, Add, Product, Alpha, AlphaOf, GeneratorPoly;
    var a := Make([Some(1)], 0);
    GeneratorStart();
    assert a == Slots(GeneratorPoly(0));
    var i := 0;
    while i < n
      invariant i <= n && i <= 255
      invariant a == Slots(GeneratorPoly(i))
    {
      var power := math.Gexp(i);
      AlphaSmall(i);
      var factor := Make([Some(1), Some(power)], 0);
      assert Numbers(factor) == [1, Alpha(i)];
      AlphaNonzero(i);
      GeneratorHasZero(i);
      var next := Multiply(math, a, factor);
      if next.Err? { return Err(next.error.n); }
      GeneratorStep(i);
      a := next.value;
      i := i + 1;
    }
    r := Ok(a);
  }

  lemma GeneratorStart()
    ensures GeneratorPoly(0) == [1]
  {
  }

  lemma GeneratorStep(i: nat)
    ensures Strip(Slots(Product(GeneratorPoly(i), [1, Alpha(i)]))) == Slots(GeneratorPoly(i + 1))
  {
    hide Product, Alpha;
    GeneratorCoefficient(i + 1, 0);
  }

  /** gexp(glog(e) + ratio) on slots, where ratio is glog(p0) - glog(e0). */
  method TimesRatio(math: Tables, c: Slot, ratio: Option<int>, ghost q: byte) returns (r: Result<Slot, int>)
    requires math.Valid()
    requires match ratio case None => q == 0 case Some(k) => AlphaOf(k) == q
    ensures r.Err? <==> c == Some(0)
    ensures r.Err? ==> r.error == 0
    ensures r.Ok? ==> Number(r.value) == Mul(q, Number(c))
  {
    hide Mul, Alpha;
    var lc := math.Glog(c);
    if lc.Err? { return Err(lc.error); }
    MulZero(Number(c));
    MulNonzero(q, Number(c));
    if lc.value.None? || ratio.None? { return Ok(None); }
    RatioProduct(c.value, ratio.value);
    var g := math.Gexp(lc.value.value + ratio.value);
    r := Ok(Some(g));
  }

  lemma RatioProduct(c: byte, k: int)
    requires c != 0
    ensures AlphaOf(Log(c) + k) == Mul(AlphaOf(k), c)
  {
    hide Alpha, Mul;
    var i := k % 255;
    AlphaAdd(i, Log(c));
    AlphaModulo(i + Log(c));
    assert (Log(c) + k) % 255 == (i + Log(c)) % 255;
  }

  /** glog(p0) - glog(e0): NaN when the leading slot is a hole. */
  method Ratio(math: Tables, p: Slot, e: Slot) returns (r: Result<Option<int>, int>)
    requires math.Valid() && p != Some(0) && e.Some?
    ensures r.Err? <==> e == Some(0)
    ensures r.Err? ==> r.error == 0
    ensures r.Ok? ==> match r.value
      case None => Quotient(Number(p), Number(e)) == 0
      case Some(k) => AlphaOf(k) == Quotient(Number(p), Number(e))
  {
    hide Mul, Alpha;
    var lp := math.Glog(p);
    var le := math.Glog(e);
    if le.Err? { return Err(le.error); }
    if lp.value.None? { return Ok(None); }
    var ratio := lp.value.value as int - le.value.value as int;
    r := Ok(Some(ratio));
  }

  /** The subtraction loop of mod, on a copy of the slots. */
  method SubtractLoop(math: Tables, num: array<Slot>, e: seq<Slot>, ratio: Option<int>, ghost q: byte)
    returns (r: Result<(), int>)
    requires math.Valid() && num as object != math.expTable && num as object != math.logTable
    requires num.Length >= |e|
    requires match ratio case None => q == 0 case Some(k) => AlphaOf(k) == q
    modifies num
    ensures r.Err? <==> HasZero(e)
    ensures r.Err? ==> r.error == 0
    ensures r.Ok? ==> num[..] == RowSoFar(old(num[..]), 0, q, e, |e|)
  {
    hide Mul, Alpha, AlphaOf, Add;
    ghost var was := num[..];
    var i := 0;
    while i < |e|
      invariant i <= |e| && math.Valid()
      invariant Some(0) !in e[..i]
      invariant num[..] == RowSoFar(was, 0, q, e, i)
    {
      var v := TimesRatio(math, e[i], ratio, q);
      if v.Err? { return Err(v.error); }
      num[i] := Some(Add(Number(num[i]), Number(v.value)));
      i := i + 1;
    }
    assert e == e[..i];
    r := Ok(());
  }

  /** One subtraction of mod. */
  method Subtract(math: Tables, p: seq<Slot>, e: seq<Slot>) returns (r: Result<seq<Slot>, int>)
    requires math.Valid() && |p| >= |e| > 0 && NoHoles(e) && Stripped(p)
    ensures HasZero(e) ==> r == Err(0)
    ensures !HasZero(e) ==> r == Ok(Cancel(p, e))
  {
    hide Mul, Alpha, AlphaOf, Add, Quotient;
    assert e[0] != None by { assert e[0] in e; }
    var ratio := Ratio(math, p[0], e[0]);
    if ratio.Err? { return Err(ratio.error); }
    var num := new Slot[|p|](_ => None);
    for i := 0 to |p|
      invariant num[..i] == p[..i]
    {
      num[i] := p[i];
    }
    assert num[..] == p;
    ghost var q := Quotient(Number(p[0]), Number(e[0]));
    var done := SubtractLoop(math, num, e, ratio.value, q);
    assert RowSoFar(p, 0, q, e, |e|) == Cancel(p, e);
    if done.Err? { return Err(done.error); }
    r := Ok(num[..]);
  }

  /** _this.mod(e), by recursion on the array that each subtraction shortens. */
  method ModOf(math: Tables, p: seq<Slot>, e: seq<Slot>) returns (r: Result<seq<Slot>, int>)
    requires math.Valid() && |e| > 0 && NoHoles(e) && Stripped(p)
    ensures r == Mod(p, e)
    decreases |p|
  {
    if |p| < |e| { return Ok(p); }
    var num := Subtract(math, p, e);
    if num.Err? { return Err(num.error); }
    CancelShrinks(p, e);
    var next := Make(num.value, 0);
    assert next == Strip(Cancel(p, e));
    r := ModOf(math, next, e);
  }

  /** The part of createBytes that computes ecdata[r] from dcdata[r]. */
  method BlockEcBytes(math: Tables, data: seq<byte>, ecCount: nat) returns (r: Result<seq<Slot>, int>)
    requires math.Valid()
    ensures r == EcBytes(data, ecCount)
  {
    hide Mod, GeneratorPoly;
    var rsPoly := ErrorCorrectPolynomial(math, ecCount);
    if rsPoly.Err? { return Err(rsPoly.error); }
    var g := rsPoly.value;
    var rawPoly := Make(Slots(data), |g| - 1);
    assert rawPoly == RawPoly(data, ecCount);
    GeneratorHasZero(ecCount);
    var modPoly := ModOf(math, rawPoly, g);
    if modPoly.Err? { return modPoly; }
    var rest := modPoly.value;
    RestFits(data, ecCount);
    var ec := new Slot[|g| - 1](_ => None);
    for i := 0 to ec.Length
      invariant ec[..i] == LastSlots(rest, ec.Length)[..i]
    {
      var modIndex := i + |rest| - ec.Length;
      ec[i] := if modIndex >= 0 then rest[modIndex] else Some(0);
    }
    assert ec[..] == LastSlots(rest, ecCount);
    r := Ok(ec[..]);
  }

  lemma RestFits(data: seq<byte>, n: nat)
    requires n <= 255 && NoHoles(Slots(GeneratorPoly(n)))
    requires Mod(RawPoly(data, n), Slots(GeneratorPoly(n))).Ok?
    ensures |Mod(RawPoly(data, n), Slots(GeneratorPoly(n))).value| <= n
  {
    var p := RawPoly(data, n);
    ModCongruent(p, Slots(GeneratorPoly(n)), |p|);
  }
}
