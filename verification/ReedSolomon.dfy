/** qrPolynomial of win/qrcodegen.js: division of arrays with holes, and the error correction bytes it yields. */
module ReedSolomon {
  import opened Prelude
  import opened Galois
  import opened GaloisField
  import opened Polynomial
  import opened Generator

  /** What a slot counts for on either side of ^. */
  function Number(c: Slot): byte {
    if c.Some? then c.value else 0
  }

  function Numbers(p: seq<Slot>): (v: Poly)
    ensures |v| == |p|
  {
    seq(|p|, i requires 0 <= i < |p| => Number(p[i]))
  }

  function Slots(v: Poly): (p: seq<Slot>)
    ensures |p| == |v|
    ensures Numbers(p) == v
  {
    var p := seq(|v|, i requires 0 <= i < |v| => Some(v[i]));
    assert Numbers(p) == v;
    p
  }

  function Holes(n: nat): (p: seq<Slot>)
    ensures |p| == n && Numbers(p) == Zeros(n)
  {
    var p := seq(n, _ => None);
    assert Numbers(p) == Zeros(n);
    p
  }

  /** Leading zeros go; a leading hole is not equal to 0 and stays. */
  function Strip(num: seq<Slot>): (p: seq<Slot>)
    ensures |p| <= |num| && Stripped(p)
  {
    if |num| > 0 && num[0] == Some(0) then Strip(num[1..]) else num
  }

  predicate Stripped(p: seq<Slot>) {
    |p| > 0 ==> p[0] != Some(0)
  }

  /** A zero makes glog throw. */
  predicate HasZero(p: seq<Slot>) {
    Some(0) in p
  }

  predicate NoHoles(p: seq<Slot>) {
    None !in p
  }

  function Pad(v: Poly, n: nat): (w: Poly)
    requires |v| <= n
    ensures |w| == n
  {
    Zeros(n - |v|) + v
  }

  /** The factor that makes b times it equal to a. */
  ghost function Quotient(a: byte, b: byte): (c: byte)
    requires b != 0
    ensures Mul(c, b) == a
  {
    if a == 0 then
      MulZero(b);
      0
    else
      var k := (Log(a) - Log(b)) % 255;
      QuotientOfPowers(Log(a), Log(b));
      Alpha(k)
  }

  lemma {:induction false} AlphaRepeats(n: nat, k: nat)
    ensures Alpha(n + 255 * k) == Alpha(n)
  {
    hide Alpha;
    if k > 0 {
      AlphaRepeats(n, k - 1);
      AlphaPeriod(n + 255 * (k - 1));
    }
  }

  lemma AlphaModulo(n: nat)
    ensures Alpha(n % 255) == Alpha(n)
  {
    hide Alpha;
    AlphaRepeats(n % 255, n / 255);
  }

  lemma QuotientOfPowers(i: nat, j: nat)
    requires i < 255 && j < 255
    ensures Mul(Alpha((i - j) % 255), Alpha(j)) == Alpha(i)
  {
    hide Alpha, Mul;
    var k := if i >= j then i - j else i - j + 255;
    assert (i - j) % 255 == k;
    AlphaAdd(k, j);
    AlphaPeriod(i);
  }

  /** The leading slot of p is cancelled with a multiple of e. */
  ghost function Cancel(p: seq<Slot>, e: seq<Slot>): (r: seq<Slot>)
    requires |p| >= |e| > 0 && Number(e[0]) != 0
    ensures |r| == |p|
  {
    var c := Quotient(Number(p[0]), Number(e[0]));
    seq(|p|, i requires 0 <= i < |p| => if i < |e| then Some(Add(Number(p[i]), Mul(c, Number(e[i])))) else p[i])
  }

  lemma CancelShrinks(p: seq<Slot>, e: seq<Slot>)
    requires |p| >= |e| > 0 && Number(e[0]) != 0
    ensures |Strip(Cancel(p, e))| < |p|
  {
    AddZero(Number(p[0]));
  }

  /** _this.mod(e): what is left when no multiple of e can be taken away any more. */
  ghost function Mod(p: seq<Slot>, e: seq<Slot>): (r: Result<seq<Slot>, int>)
    requires |e| > 0 && NoHoles(e) && Stripped(p)
    decreases |p|
  {
    if |p| < |e| then Ok(p)
    else if HasZero(e) then Err(0)
    else
      CancelShrinks(p, e);
      Mod(Strip(Cancel(p, e)), e)
  }

  // ---- division takes away a multiple of the divisor ----

  lemma {:induction false} StripNumbers(num: seq<Slot>, n: nat)
    requires |num| <= n
    ensures Pad(Numbers(Strip(num)), n) == Pad(Numbers(num), n)
  {
    if |num| > 0 && num[0] == Some(0) {
      StripNumbers(num[1..], n);
      assert Zeros(n - |num|) + [0] == Zeros(n - |num| + 1);
      assert Numbers(num) == [0] + Numbers(num[1..]);
    }
  }

  /** One cancellation, on the numbers padded to a common length n. */
  lemma CancelNumbers(p: seq<Slot>, e: seq<Slot>, n: nat) returns (row: Poly)
    requires n >= |p| >= |e| > 0 && Number(e[0]) != 0
    ensures |row| == n && Multiple(row, Numbers(e))
    ensures Pad(Numbers(p), n) == Sum(row, Pad(Numbers(Cancel(p, e)), n))
  {
    var c := Quotient(Number(p[0]), Number(e[0]));
    var left, right := n - |p|, |p| - |e|;
    row := Zeros(left) + Scale(c, Numbers(e)) + Zeros(right);
    MultipleRow(left, c, right, Numbers(e));
    hide Quotient, Mul, Add;
    forall i | 0 <= i < n
      ensures Pad(Numbers(p), n)[i] == Add(row[i], Pad(Numbers(Cancel(p, e)), n)[i])
    {
      if i < left {
        AddZero(0);
      } else if i < left + |e| {
        var a, m := Number(p[i - left]), Mul(c, Number(e[i - left]));
        AddLaws(a, m, m);
        AddLaws(m, Add(a, m), 0);
        AddZero(m);
        AddZero(a);
      } else {
        AddZero(Number(p[i - left]));
      }
    }
  }

  /** The dividend and the rest differ by a multiple of the divisor, and the rest is shorter. */
  lemma {:induction false} ModCongruent(p: seq<Slot>, e: seq<Slot>, n: nat)
    requires |e| > 0 && NoHoles(e) && Stripped(p) && Mod(p, e).Ok?
    requires n >= |p| && n + 1 >= |e|
    ensures |Mod(p, e).value| < |e| && |Mod(p, e).value| <= |p|
    ensures Multiple(Sum(Pad(Numbers(p), n), Pad(Numbers(Mod(p, e).value), n)), Numbers(e))
    decreases |p|
  {
    var v, g := Pad(Numbers(p), n), Numbers(e);
    if |p| < |e| {
      SumZeros(v);
      MultipleZeros(n, g);
    } else {
      CancelShrinks(p, e);
      var next := Strip(Cancel(p, e));
      ModCongruent(next, e, n);
      var row := CancelNumbers(p, e, n);
      StripNumbers(Cancel(p, e), n);
      var w, rest := Pad(Numbers(next), n), Pad(Numbers(Mod(next, e).value), n);
      MultipleSum(row, Sum(w, rest), g);
      SumAssoc(row, w, rest);
    }
  }

  // ---- the error correction bytes of one block ----

  /** The ec bytes of one block: the rest of data * x^n, padded on the left; glog throws when a coefficient is 0. */
  ghost function EcBytes(data: seq<byte>, n: nat): (r: Result<seq<Slot>, int>)
    ensures r.Ok? ==> |r.value| == n
  {
    if n > 255 then Err(0)
    else
      var rest := Mod(RawPoly(data, n), Slots(GeneratorPoly(n)));
      if rest.Err? then rest
      else Ok(LastSlots(rest.value, n))
  }

  function RawPoly(data: seq<byte>, n: nat): (p: seq<Slot>)
    ensures Stripped(p)
  {
    Strip(Slots(data)) + Holes(n)
  }

  /** ecdata[r]: slots of the rest counted from the end, and 0 where the rest is too short. */
  function LastSlots(rest: seq<Slot>, n: nat): (e: seq<Slot>)
    ensures |e| == n
  {
    seq(n, i requires 0 <= i < n =>
      if i + |rest| - n >= 0 && i + |rest| - n < |rest| then rest[i + |rest| - n] else Some(0))
  }

  lemma LastSlotsNumbers(rest: seq<Slot>, n: nat)
    requires |rest| <= n
    ensures Numbers(LastSlots(rest, n)) == Pad(Numbers(rest), n)
  {
  }

  lemma StripHoles(num: seq<Slot>, n: nat, total: nat)
    requires |num| + n == total
    ensures |Strip(num)| + n <= total
    ensures Pad(Numbers(Strip(num) + Holes(n)), total) == Numbers(num) + Zeros(n)
  {
    StripNumbers(num, |num|);
    var s := Strip(num);
    assert Numbers(s + Holes(n)) == Numbers(s) + Zeros(n);
    assert Zeros(|num| - |num|) + Numbers(num) == Numbers(num);
  }

  /** The code word of a block: its data bytes and then its error correction bytes. */
  function CodeWord(data: seq<byte>, ec: seq<Slot>): Poly {
    data + Numbers(ec)
  }

  /** Where there are error correction bytes, they are the end of the rest. */
  lemma EcParts(data: seq<byte>, n: nat)
    requires EcBytes(data, n).Ok?
    ensures var rest := Mod(RawPoly(data, n), Slots(GeneratorPoly(n)));
            rest.Ok? && EcBytes(data, n).value == LastSlots(rest.value, n)
  {
  }

  lemma RestPadded(rest: seq<Slot>, n: nat, len: nat)
    requires |rest| <= n
    ensures Pad(Numbers(rest), len + n) == Zeros(len) + Numbers(LastSlots(rest, n))
  {
    LastSlotsNumbers(rest, n);
    assert Zeros(len + n - |rest|) == Zeros(len) + Zeros(n - |rest|);
  }

  lemma DataPadded(data: seq<byte>, n: nat)
    ensures |RawPoly(data, n)| <= |data| + n
    ensures Pad(Numbers(RawPoly(data, n)), |data| + n) == data + Zeros(n)
  {
    StripHoles(Slots(data), n, |data| + n);
    assert Numbers(Slots(data)) == data;
  }

  lemma GeneratorSlots(n: nat)
    ensures |Slots(GeneratorPoly(n))| == n + 1 && NoHoles(Slots(GeneratorPoly(n)))
    ensures Numbers(Slots(GeneratorPoly(n))) == GeneratorPoly(n)
  {
    hide GeneratorPoly;
  }

  lemma CodeWordMultiple(data: seq<byte>, n: nat)
    requires EcBytes(data, n).Ok?
    ensures Multiple(CodeWord(data, EcBytes(data, n).value), GeneratorPoly(n))
  {
    EcParts(data, n);
    GeneratorSlots(n);
    hide EcBytes, Mod, Multiple, GeneratorPoly, Strip, Sum, Pad, Numbers, Slots, LastSlots, NoHoles, Stripped;
    var e, p := Slots(GeneratorPoly(n)), RawPoly(data, n);
    DataPadded(data, n);
    hide RawPoly;
    ModCongruent(p, e, |data| + n);
    RestPadded(Mod(p, e).value, n, |data|);
    SumHalves(data, Numbers(EcBytes(data, n).value));
  }

  lemma SumHalves(data: Poly, ec: Poly)
    ensures Sum(data + Zeros(|ec|), Zeros(|data|) + ec) == data + ec
  {
    SumZeros(data);
    SumZeros(ec);
    assert Sum(data + Zeros(|ec|), Zeros(|data|) + ec) == Sum(data, Zeros(|data|)) + Sum(Zeros(|ec|), ec);
  }

  /** Every code word vanishes at the n consecutive powers a^0 .. a^(n-1). */
  lemma CodeWordRoots(data: seq<byte>, n: nat, i: nat)
    requires EcBytes(data, n).Ok? && i < n
    ensures Eval(CodeWord(data, EcBytes(data, n).value), Alpha(i)) == 0
  {
    hide Alpha;
    CodeWordMultiple(data, n);
    GeneratorRoots(n, i);
    RootOfMultiple(CodeWord(data, EcBytes(data, n).value), GeneratorPoly(n), Alpha(i));
  }

  /** No other n bytes after the data give a multiple of the generator. */
  lemma CodeWordUnique(data: seq<byte>, n: nat, other: Poly)
    requires EcBytes(data, n).Ok? && |other| == n
    requires Multiple(data + other, GeneratorPoly(n))
    ensures other == Numbers(EcBytes(data, n).value)
  {
    hide GeneratorPoly, Mul, Add, EcBytes;
    var ec, g := Numbers(EcBytes(data, n).value), GeneratorPoly(n);
    CodeWordMultiple(data, n);
    MultipleSum(data + ec, data + other, g);
    SumZeros(data);
    var d := Sum(data + ec, data + other);
    assert d == Zeros(|data|) + Sum(ec, other);
    GeneratorCoefficient(n, 0);
    assert d[..|d| - n] == Zeros(|data|);
    SmallMultiple(d, g);
    forall i | 0 <= i < n
      ensures ec[i] == other[i]
    {
      assert Sum(ec, other)[i] == d[|data| + i];
      AddSolve(ec[i], other[i]);
    }
  }

  // ---- when glog throws ----

  lemma GeneratorHasZero(n: nat)
    requires n <= 255
    ensures HasZero(Slots(GeneratorPoly(n))) <==> n == 255
    ensures NoHoles(Slots(GeneratorPoly(n)))
  {
    hide Coefficient, GeneratorPoly;
    var s := Slots(GeneratorPoly(n));
    forall k | 0 <= k <= n
      ensures s[k] == Some(Coefficient(n, k))
    {
      GeneratorCoefficient(n, k);
    }
    if n == 255 {
      CoefficientVanishes(n);
      assert s[1] == Some(0);
    } else {
      forall k | 0 <= k <= n
        ensures s[k] != Some(0)
      {
        CoefficientNonzero(n, k);
      }
    }
  }

  lemma {:induction false} ModOk(p: seq<Slot>, e: seq<Slot>)
    requires |e| > 0 && NoHoles(e) && Stripped(p)
    ensures Mod(p, e).Ok? <==> |p| < |e| || !HasZero(e)
    decreases |p|
  {
    if |p| >= |e| && !HasZero(e) {
      CancelShrinks(p, e);
      ModOk(Strip(Cancel(p, e)), e);
    }
  }

  lemma {:induction false} StripEmpty(data: seq<byte>)
    ensures |Strip(Slots(data))| == 0 <==> data == Zeros(|data|)
  {
    if |data| > 0 && data[0] == 0 {
      StripEmpty(data[1..]);
      assert Slots(data)[1..] == Slots(data[1..]);
      assert data == [0] + data[1..];
      assert Zeros(|data|) == [0] + Zeros(|data| - 1);
      assert Zeros(|data|)[1..] == Zeros(|data[1..]|);
    }
  }

  /** The bytes exist exactly up to 254 of them, and for a block of zeros up to 255. */
  lemma EcBytesExist(data: seq<byte>, n: nat)
    ensures EcBytes(data, n).Ok? <==> n <= 254 || (n == 255 && data == Zeros(|data|))
  {
    if n <= 255 {
      GeneratorHasZero(n);
      ModOk(RawPoly(data, n), Slots(GeneratorPoly(n)));
      StripEmpty(data);
    }
  }
}
