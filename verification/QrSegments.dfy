/** The segment encoders of win/qrcodegen.js against a reader that follows the standard. */
module QrSegments {
  import opened Prelude
  import opened Bits
  import opened QrBuffer

  // ---- digits ----

  predicate IsDigit(c: char) {
    '0' <= c <= '9'
  }

  predicate AllDigits(s: string) {
    forall i :: 0 <= i < |s| ==> IsDigit(s[i])
  }

  function Digit(c: char): nat
    requires IsDigit(c)
  {
    c as int - '0' as int
  }

  function Number(s: string): nat
    requires AllDigits(s)
  {
    if s == "" then 0 else 10 * Number(s[..|s| - 1]) + Digit(s[|s| - 1])
  }

  function Pow10(n: nat): nat {
    if n == 0 then 1 else 10 * Pow10(n - 1)
  }

  lemma {:induction false} NumberBound(s: string)
    requires AllDigits(s)
    ensures Number(s) < Pow10(|s|)
  {
    if s != "" { NumberBound(s[..|s| - 1]); }
  }

  function Digits(v: nat, k: nat): (s: string)
    ensures |s| == k
  {
    if k == 0 then "" else Digits(v / 10, k - 1) + [(v % 10 + '0' as int) as char]
  }

  lemma {:induction false} DigitsOfNumber(s: string)
    requires AllDigits(s)
    ensures Digits(Number(s), |s|) == s
  {
    if s != "" {
      var init := s[..|s| - 1];
      DigitsOfNumber(init);
      assert s == init + [s[|s| - 1]];
    }
  }

  // ---- what each encoder writes ----

  /** Bits for a group of one, two or three digits. */
  function GroupBits(k: nat): nat
    requires 1 <= k <= 3
  {
    if k == 1 then 4 else if k == 2 then 7 else 10
  }

  function NumericBits(s: string): seq<bool>
    requires AllDigits(s)
  {
    if s == "" then []
    else
      var k := if |s| < 3 then |s| else 3;
      MsbBits(Number(s[..k]), GroupBits(k)) + NumericBits(s[k..])
  }

  function GetCode(c: char): Option<nat> {
    if '0' <= c <= '9' then Some(c as int - '0' as int)
    else if 'A' <= c <= 'Z' then Some(c as int - 'A' as int + 10)
    else match c
      case ' ' => Some(36)
      case '$' => Some(37)
      case '%' => Some(38)
      case '*' => Some(39)
      case '+' => Some(40)
      case '-' => Some(41)
      case '.' => Some(42)
      case '/' => Some(43)
      case ':' => Some(44)
      case _ => None
  }

  predicate AllCodes(s: string) {
    forall i :: 0 <= i < |s| ==> GetCode(s[i]).Some?
  }

  function Code(c: char): nat
    requires GetCode(c).Some?
  {
    GetCode(c).value
  }

  /** The character that a code stands for, in the order of table 5 of ISO/IEC 18004. */
  function CodeChar(k: nat): char
    requires k < 45
  {
    if k < 10 then (k + '0' as int) as char
    else if k < 36 then (k - 10 + 'A' as int) as char
    else " $%*+-./:"[k - 36]
  }

  lemma CodeOfChar(c: char)
    requires GetCode(c).Some?
    ensures Code(c) < 45 && CodeChar(Code(c)) == c
  {
  }

  function AlphaNumBits(s: string): seq<bool>
    requires AllCodes(s)
  {
    if s == "" then []
    else if |s| == 1 then MsbBits(Code(s[0]), 6)
    else MsbBits(Code(s[0]) * 45 + Code(s[1]), 11) + AlphaNumBits(s[2..])
  }

  // ---- the encoders ----

  /** strToNum: throws on the first character that is no digit. */
  method StrToNum(s: string) returns (r: Result<nat, char>)
    ensures r.Ok? <==> AllDigits(s)
    ensures r.Ok? ==> r.value == Number(s)
  {
    var num := 0;
    var i := 0;
    while i < |s|
      invariant i <= |s| && AllDigits(s[..i]) && num == Number(s[..i])
    {
      if !('0' <= s[i] <= '9') {
        return Err(s[i]);
      }
      num := num * 10 + (s[i] as int - '0' as int);
      assert s[..i + 1][..i] == s[..i];
      i := i + 1;
    }
    assert s[..i] == s;
    r := Ok(num);
  }

  /** qrNumber.write. */
  method WriteNumber(data: string, buffer: QrBitBuffer) returns (r: Result<(), char>)
    requires buffer.Valid()
    modifies buffer
    ensures buffer.Valid()
    ensures r.Ok? <==> AllDigits(data)
    ensures r.Ok? ==> buffer.bits == old(buffer.bits) + NumericBits(data)
  {
    hide NumericBits, Number, MsbBits;
    var i := 0;
    assert data[0..] == data;
    while i + 2 < |data|
      invariant i <= |data| && buffer.Valid()
      invariant AllDigits(data[..i])
      invariant AllDigits(data) ==> buffer.bits + NumericBits(data[i..]) == old(buffer.bits) + NumericBits(data)
    {
      ghost var was := buffer.bits;
      r := PutNumber(data[i..i + 3], buffer);
      if r.Err? { NotAllDigits(data, i, i + 3); return; }
      NumericNext(was, data, i, i + 3);
      i := i + 3;
    }
    assert AllDigits(data[..i]);
    if i < |data| {
      ghost var was := buffer.bits;
      r := PutNumber(data[i..], buffer);
      assert data[i..|data|] == data[i..];
      if r.Err? { NotAllDigits(data, i, |data|); return; }
      NumericNext(was, data, i, |data|);
      i := |data|;
    }
    NumericEmpty();
    assert data[..|data|] == data && data[|data|..] == "";
    assert buffer.bits + [] == buffer.bits;
    r := Ok(());
  }

  lemma NumericEmpty()
    ensures NumericBits("") == []
  {
  }

  lemma NotAllDigits(s: string, i: nat, j: nat)
    requires i <= j <= |s| && !AllDigits(s[i..j])
    ensures !AllDigits(s)
  {
    var k :| 0 <= k < j - i && !IsDigit(s[i..j][k]);
    assert s[i + k] == s[i..j][k];
  }

  /** A group taken from the front of what is left to write. */
  lemma NumericNext(was: seq<bool>, s: string, i: nat, j: nat)
    requires i < j <= |s| && AllDigits(s[..i]) && AllDigits(s[i..j])
    requires j == i + 3 || (j == |s| && j < i + 3)
    ensures AllDigits(s[..j])
    ensures AllDigits(s) ==>
      was + MsbBits(Number(s[i..j]), GroupBits(j - i)) + NumericBits(s[j..]) == was + NumericBits(s[i..])
  {
    hide Number, MsbBits;
    assert s[..j] == s[..i] + s[i..j];
    if AllDigits(s) {
      var k := j - i;
      assert s[i..][..k] == s[i..j] && s[i..][k..] == s[j..];
      Assoc(was, MsbBits(Number(s[i..j]), GroupBits(k)), NumericBits(s[j..]));
    }
  }

  /** One group: as many bits as its digits need. */
  method PutNumber(s: string, buffer: QrBitBuffer) returns (r: Result<(), char>)
    requires buffer.Valid() && 1 <= |s| <= 3
    modifies buffer
    ensures buffer.Valid()
    ensures r.Ok? <==> AllDigits(s)
    ensures r.Ok? ==> buffer.bits == old(buffer.bits) + MsbBits(Number(s), GroupBits(|s|))
  {
    hide MsbBits;
    var v := StrToNum(s);
    if v.Err? { return Err(v.error); }
    NumberFits(s);
    buffer.Put(v.value, if |s| == 1 then 4 else if |s| == 2 then 7 else 10);
    r := Ok(());
  }

  lemma NumberFits(s: string)
    requires AllDigits(s) && 1 <= |s| <= 3
    ensures Number(s) < Pow2(GroupBits(|s|)) <= Pow2(32)
  {
    NumberBound(s);
    Pow2Values();
    assert Pow10(1) == 10 && Pow10(2) == 100 && Pow10(3) == 1000;
    Pow2Monotone(GroupBits(|s|), 32);
  }

  /** qrAlphaNum.write. */
  method WriteAlphaNum(s: string, buffer: QrBitBuffer) returns (r: Result<(), char>)
    requires buffer.Valid()
    modifies buffer
    ensures buffer.Valid()
    ensures r.Ok? <==> AllCodes(s)
    ensures r.Ok? ==> buffer.bits == old(buffer.bits) + AlphaNumBits(s)
  {
    hide AlphaNumBits, MsbBits, GetCode, Pow2, PackBits;
    var i := 0;
    assert s[0..] == s;
    CodesFit();
    while i + 1 < |s|
      invariant i <= |s| && buffer.Valid()
      invariant forall k :: 0 <= k < i ==> GetCode(s[k]).Some?
      invariant AllCodes(s) ==> buffer.bits + AlphaNumBits(s[i..]) == old(buffer.bits) + AlphaNumBits(s)
    {
      ghost var was := buffer.bits;
      r := PutPair(s[i], s[i + 1], buffer);
      if r.Err? { return; }
      if AllCodes(s) { AlphaNumNext(was, s, i); }
      i := i + 2;
    }
    if i < |s| {
      r := PutLast(s[i], buffer);
      if r.Err? { return; }
      if AllCodes(s) { AlphaNumLast(s, i); }
    } else {
      AlphaNumEmpty();
      assert s[i..] == "" && buffer.bits + [] == buffer.bits;
    }
    r := Ok(());
  }

  /** A character left over in six bits. */
  method PutLast(c: char, buffer: QrBitBuffer) returns (r: Result<(), char>)
    requires buffer.Valid()
    modifies buffer
    ensures buffer.Valid()
    ensures r.Ok? <==> GetCode(c).Some?
    ensures r.Ok? ==> buffer.bits == old(buffer.bits) + MsbBits(Code(c), 6)
  {
    hide MsbBits, GetCode;
    CodesFit();
    var a := GetCode(c);
    if a.None? { return Err(c); }
    CodeOfChar(c);
    buffer.Put(a.value, 6);
    r := Ok(());
  }

  /** Two characters in eleven bits. */
  method PutPair(c: char, d: char, buffer: QrBitBuffer) returns (r: Result<(), char>)
    requires buffer.Valid()
    modifies buffer
    ensures buffer.Valid()
    ensures r.Ok? <==> GetCode(c).Some? && GetCode(d).Some?
    ensures r.Ok? ==> buffer.bits == old(buffer.bits) + MsbBits(Code(c) * 45 + Code(d), 11)
  {
    hide MsbBits, GetCode;
    CodesFit();
    var a := GetCode(c);
    if a.None? { return Err(c); }
    var b := GetCode(d);
    if b.None? { return Err(d); }
    CodeOfChar(c);
    CodeOfChar(d);
    buffer.Put(a.value * 45 + b.value, 11);
    r := Ok(());
  }

  lemma CodesFit()
    ensures Pow2(11) == 2048 <= Pow2(32) && Pow2(6) == 64 <= Pow2(32)
  {
    Pow2Values();
    Pow2Monotone(11, 32);
  }

  lemma AlphaNumEmpty()
    ensures AlphaNumBits("") == []
  {
  }

  lemma AlphaNumLast(s: string, i: nat)
    requires AllCodes(s) && |s| == i + 1
    ensures AlphaNumBits(s[i..]) == MsbBits(Code(s[i]), 6)
  {
  }

  lemma AlphaNumNext(was: seq<bool>, s: string, i: nat)
    requires AllCodes(s) && i + 1 < |s|
    ensures was + MsbBits(Code(s[i]) * 45 + Code(s[i + 1]), 11) + AlphaNumBits(s[i + 2..]) == was + AlphaNumBits(s[i..])
  {
    hide GetCode, MsbBits;
    assert s[i..][2..] == s[i + 2..];
    Assoc(was, MsbBits(Code(s[i]) * 45 + Code(s[i + 1]), 11), AlphaNumBits(s[i + 2..]));
  }

  /** qr8BitByte.write. */
  method WriteBytes(bytes: seq<byte>, buffer: QrBitBuffer)
    requires buffer.Valid()
    modifies buffer
    ensures buffer.Valid()
    ensures buffer.bits == old(buffer.bits) + ByteBits(bytes)
  {
    hide ByteBits, MsbBits;
    ByteBitsEmpty();
    assert old(buffer.bits) + [] == old(buffer.bits);
    CodesFit();
    var i := 0;
    assert bytes[0..] == bytes;
    while i < |bytes|
      invariant i <= |bytes| && buffer.Valid()
      invariant buffer.bits + ByteBits(bytes[i..]) == old(buffer.bits) + ByteBits(bytes)
    {
      ghost var was := buffer.bits;
      buffer.Put(bytes[i], 8);
      ByteBitsCons(bytes[i], bytes[i + 1..]);
      assert bytes[i..] == [bytes[i]] + bytes[i + 1..];
      Assoc(was, MsbBits(bytes[i], 8), ByteBits(bytes[i + 1..]));
      i := i + 1;
    }
    assert bytes[i..] == [];
    assert buffer.bits + [] == buffer.bits;
  }
}
