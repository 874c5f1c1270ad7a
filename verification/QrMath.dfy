/** QRMath of win/qrcodegen.js: the tables, built by their recurrence, hold powers and logarithms. */
module QrMath {
  import opened Prelude
  import opened Bits
  import opened Galois
  import opened GaloisField

  // ---- x^8 = x^4 + x^3 + x^2 + 1 ----

  lemma {:induction false} AlphaLow(i: nat)
    requires i < 8
    ensures Alpha(i) == Shl(1, i)
  {
    if i > 0 {
      AlphaLow(i - 1);
      ShlOne(i - 1);
      ShlOne(i);
    }
  }

  function Recurrence(a: byte, b: byte, c: byte, d: byte): byte {
    Add(Add(Add(a, b), c), d)
  }

  lemma RecurrenceX(a: byte, b: byte, c: byte, d: byte)
    ensures X(Recurrence(a, b, c, d)) == Recurrence(X(a), X(b), X(c), X(d))
  {
    hide X, Add;
    XLinear(a, b);
    XLinear(Add(a, b), c);
    XLinear(Add(Add(a, b), c), d);
  }

  lemma LowPowers()
    ensures Alpha(0) == 1 && Alpha(2) == 4 && Alpha(3) == 8 && Alpha(4) == 16 && Alpha(8) == 29
  {
    assert Alpha(7) == 128;
    XFold(0, 0, 0);
  }

  lemma LowSum()
    ensures Recurrence(16, 8, 4, 1) == 29
  {
    assert Xor(2, 1) == 3 && Xor(4, 2) == 6 && Xor(8, 4) == 12;
    assert Xor(3, 0) == 3;
    assert Xor(6, 1) == 7 && Xor(12, 2) == 14 && Xor(24, 4) == 28;
    XorHalves(28, 1);
    XorZero(14);
  }

  lemma {:induction false} AlphaRecurrence(i: nat)
    requires i >= 8
    ensures Alpha(i) == Recurrence(Alpha(i - 4), Alpha(i - 5), Alpha(i - 6), Alpha(i - 8))
  {
    hide Recurrence, X;
    if i == 8 {
      RecurrenceStart();
    } else {
      AlphaRecurrence(i - 1);
      RecurrenceX(Alpha(i - 5), Alpha(i - 6), Alpha(i - 7), Alpha(i - 9));
      AlphaNext(i - 5);
      AlphaNext(i - 6);
      AlphaNext(i - 7);
      AlphaNext(i - 9);
    }
  }

  lemma RecurrenceStart()
    ensures Alpha(8) == Recurrence(Alpha(4), Alpha(3), Alpha(2), Alpha(0))
  {
    hide Recurrence, X;
    LowPowers();
    LowSum();
  }

  lemma AlphaNext(i: nat)
    ensures Alpha(i + 1) == X(Alpha(i))
  {
  }

  /** Exponents count modulo 255. */
  function AlphaOf(n: int): byte {
    Alpha(n % 255)
  }

  lemma AlphaShift(n: int)
    ensures AlphaOf(n + 255) == AlphaOf(n)
  {
    assert (n + 255) % 255 == n % 255;
  }

  lemma AlphaSmall(n: nat)
    requires n < 256
    ensures AlphaOf(n) == Alpha(n)
  {
    hide Alpha;
    if n == 255 { AlphaPeriod(0); }
  }

  class Tables {
    const expTable: array<byte>
    const logTable: array<Option<nat>>

    ghost predicate Valid()
      reads this, expTable, logTable
    {
      && expTable.Length == 256 && logTable.Length == 256
      && (forall i :: 0 <= i < 256 ==> expTable[i] == Alpha(i))
      && logTable[0] == None
      && (forall a: byte :: a != 0 ==> logTable[a] == Some(Log(a)))
    }

    constructor ()
      ensures Valid() && fresh(expTable) && fresh(logTable)
    {
      var exp := new byte[256](_ => 0);
      var log := new Option<nat>[256](_ => None);
      expTable, logTable := exp, log;
      new;
      FillExp(exp);
      FillLog(exp, log);
    }

    static method FillExp(exp: array<byte>)
      requires exp.Length == 256
      modifies exp
      ensures forall i :: 0 <= i < 256 ==> exp[i] == Alpha(i)
    {
      hide Alpha, Add;
      for i := 0 to 8
        invariant forall j :: 0 <= j < i ==> exp[j] == Alpha(j)
      {
        AlphaLow(i);
        exp[i] := Shl(1, i);
      }
      for i := 8 to 256
        invariant forall j :: 0 <= j < i ==> exp[j] == Alpha(j)
      {
        AlphaRecurrence(i);
        exp[i] := Add(Add(Add(exp[i - 4], exp[i - 5]), exp[i - 6]), exp[i - 8]);
      }
    }

    static method FillLog(exp: array<byte>, log: array<Option<nat>>)
      requires exp.Length == 256 && forall i :: 0 <= i < 256 ==> exp[i] == Alpha(i)
      requires log.Length == 256 && forall a :: 0 <= a < 256 ==> log[a] == None
      modifies log
      ensures log[0] == None && forall a: byte :: a != 0 ==> log[a] == Some(Log(a))
    {
      hide Alpha;
      for i := 0 to 255
        invariant forall a: byte :: a != 0 ==> log[a] == if Log(a) < i then Some(Log(a)) else None
        invariant log[0] == None
      {
        LogAlpha(i);
        log[exp[i]] := Some(i);
        forall a: byte | a != 0 && Log(a) == i
          ensures a == Alpha(i)
        {
        }
      }
    }

    /** QRMath.glog: throws below 1, and an undefined argument gives an undefined result. */
    method Glog(n: Option<byte>) returns (r: Result<Option<nat>, int>)
      requires Valid()
      ensures n == Some(0) ==> r == Err(0)
      ensures n.None? ==> r == Ok(None)
      ensures n.Some? && n.value != 0 ==> r == Ok(Some(Log(n.value)))
    {
      if n.None? {
        r := Ok(None);
      } else if n.value < 1 {
        r := Err(n.value);
      } else {
        r := Ok(logTable[n.value]);
      }
    }

    /** QRMath.gexp: the range of n is reduced by 255 until the table reaches. */
    method Gexp(n: int) returns (r: byte)
      requires Valid()
      ensures r == AlphaOf(n)
    {
      hide AlphaOf, Alpha;
      var m := n;
      while m < 0
        invariant AlphaOf(m) == AlphaOf(n)
      {
        AlphaShift(m);
        m := m + 255;
      }
      while m >= 256
        invariant m >= 0 && AlphaOf(m) == AlphaOf(n)
      {
        AlphaShift(m - 255);
        m := m - 255;
      }
      AlphaSmall(m);
      r := expTable[m];
    }
  }

  /** Sums of logarithms are products. */
  lemma LogProduct(a: byte, b: byte)
    requires a != 0 && b != 0
    ensures AlphaOf(Log(a) + Log(b)) == Mul(a, b)
  {
    hide Alpha, Mul;
    var i, j := Log(a), Log(b);
    AlphaAdd(i, j);
    if i + j >= 255 {
      AlphaPeriod(i + j - 255);
      assert (i + j) % 255 == i + j - 255;
    }
  }
}
