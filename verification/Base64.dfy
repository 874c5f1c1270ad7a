/** The base64 streams of win/qrcodegen.js against section 4 of RFC 4648. */
module Base64 {
  import opened Prelude
  import opened Bits
  import opened QrBuffer

  // ---- the alphabet ----

  function EncodeChar(n: nat): char
    requires n < 64
  {
    if n < 26 then (0x41 + n) as char
    else if n < 52 then (0x61 + (n - 26)) as char
    else if n < 62 then (0x30 + (n - 52)) as char
    else if n == 62 then '+'
    else '/'
  }

  function DecodeChar(ch: char): (r: Option<nat>)
    ensures r.Some? ==> r.value < 64
  {
    var c := ch as int;
    if 0x41 <= c <= 0x5a then Some(c - 0x41)
    else if 0x61 <= c <= 0x7a then Some(c - 0x61 + 26)
    else if 0x30 <= c <= 0x39 then Some(c - 0x30 + 52)
    else if c == 0x2b then Some(62)
    else if c == 0x2f then Some(63)
    else None
  }

  /** The white space of a JavaScript regular expression. */
  predicate IsSpace(ch: char) {
    var c := ch as int;
    9 <= c <= 13 || c == 32 || c == 0xA0 || c == 0x1680 ||
    0x2000 <= c <= 0x200A || c == 0x2028 || c == 0x2029 || c == 0x202F
    || c == 0x205F || c == 0x3000 || c == 0xFEFF
  }

  lemma CharRoundTrip(n: nat)
    requires n < 64
    ensures DecodeChar(EncodeChar(n)) == Some(n) && EncodeChar(n) != '=' && !IsSpace(EncodeChar(n))
  {
  }

  // ---- the encoding as a whole ----

  /** One character for every six bits. */
  function Sextets(bits: seq<bool>): (s: string)
    ensures 6 * |s| <= |bits| < 6 * |s| + 6
  {
    if |bits| < 6 then ""
    else
      SextetBound(bits[..6]);
      [EncodeChar(MsbValue(bits[..6]))] + Sextets(bits[6..])
  }

  lemma SextetBound(bits: seq<bool>)
    requires |bits| == 6
    ensures MsbValue(bits) < 64
  {
    MsbValueBound(bits);
    assert Pow2(6) == 64;
  }

  function Fill(n: nat): nat {
    if n % 3 == 0 then 0 else if n % 3 == 1 then 4 else 2
  }

  function Pads(n: nat): string {
    if n % 3 == 0 then "" else if n % 3 == 1 then "==" else "="
  }

  function Encoded(bytes: seq<byte>): string {
    Sextets(ByteBits(bytes) + ZeroBits(Fill(|bytes|))) + Pads(|bytes|)
  }

  lemma EncodedLength(bytes: seq<byte>)
    ensures |Encoded(bytes)| % 4 == 0 && |Encoded(bytes)| == 4 * ((|bytes| + 2) / 3)
  {
    hide ByteBits, Sextets;
    var n := |bytes|;
    var text := Sextets(ByteBits(bytes) + ZeroBits(Fill(n)));
    WholeLength(n, n / 3, n % 3, |text|);
  }

  lemma WholeLength(n: nat, q: nat, r: nat, t: nat)
    requires n == 3 * q + r && r < 3 && 6 * t <= 8 * n + Fill(n) < 6 * t + 6
    ensures (t + |Pads(n)|) % 4 == 0 && t + |Pads(n)| == 4 * ((n + 2) / 3)
  {
    assert n % 3 == r;
    if r == 0 {
      assert t == 4 * q && (n + 2) / 3 == q;
    } else if r == 1 {
      assert t == 4 * q + 2 && (n + 2) / 3 == q + 1;
    } else {
      assert t == 4 * q + 3 && (n + 2) / 3 == q + 1;
    }
  }

  // ---- reading ----

  datatype Outcome =
    | Byte(value: byte, bits: seq<bool>, rest: string)
    | End
    | Error

  /** read: the pending bits and the text that is left. */
  function Read(bits: seq<bool>, s: string): (r: Outcome)
    ensures r.Byte? ==> |r.bits| + 6 * |r.rest| < |bits| + 6 * |s|
    decreases |s|
  {
    if |bits| >= 8 then
      EightBound(bits[..8]);
      Byte(MsbValue(bits[..8]), bits[8..], s)
    else if s == "" then
      if bits == [] then End else Error
    else if s[0] == '=' then End
    else if IsSpace(s[0]) then Read(bits, s[1..])
    else if DecodeChar(s[0]).None? then Error
    else Read(bits + MsbBits(DecodeChar(s[0]).value, 6), s[1..])
  }

  lemma EightBound(bits: seq<bool>)
    requires |bits| == 8
    ensures MsbValue(bits) < 256
  {
    MsbValueBound(bits);
    assert Pow2(8) == 256;
  }

  lemma ReadStep(bits: seq<bool>, s: string)
    ensures |bits| >= 8 ==> MsbValue(bits[..8]) < 256 && Read(bits, s) == Byte(MsbValue(bits[..8]), bits[8..], s)
    ensures |bits| < 8 && s == "" ==> Read(bits, s) == if bits == [] then End else Error
    ensures |bits| < 8 && s != "" && s[0] == '=' ==> Read(bits, s) == End
    ensures |bits| < 8 && s != "" && s[0] != '=' && IsSpace(s[0]) ==> Read(bits, s) == Read(bits, s[1..])
    ensures |bits| < 8 && s != "" && s[0] != '=' && !IsSpace(s[0]) ==>
      Read(bits, s) == match DecodeChar(s[0]) case None => Error case Some(v) => Read(bits + MsbBits(v, 6), s[1..])
  {
    hide DecodeChar, IsSpace, MsbBits;
    if |bits| >= 8 { EightBound(bits[..8]); }
  }

  /** Reading until the end. */
  function ReadAll(bits: seq<bool>, s: string): Option<seq<byte>>
    decreases |bits| + 6 * |s|
  {
    match Read(bits, s)
    case End => Some([])
    case Error => None
    case Byte(b, more, rest) =>
      var r := ReadAll(more, rest);
      if r.None? then None else Some([b] + r.value)
  }

  lemma SextetsStep(bits: seq<bool>)
    requires |bits| >= 6
    ensures MsbValue(bits[..6]) < 64 && Sextets(bits) == [EncodeChar(MsbValue(bits[..6]))] + Sextets(bits[6..])
  {
    SextetBound(bits[..6]);
  }

  /** A character of the encoding puts its six bits back. */
  lemma ReadSextet(p: seq<bool>, bits: seq<bool>, tail: string)
    requires |p| < 8 && |bits| >= 6
    ensures Read(p, Sextets(bits) + tail) == Read(p + bits[..6], Sextets(bits[6..]) + tail)
  {
    hide EncodeChar, DecodeChar, IsSpace, Sextets, Read, MsbValue, MsbBits;
    SextetsStep(bits);
    var six, more := bits[..6], Sextets(bits[6..]);
    var v := MsbValue(six);
    CharRoundTrip(v);
    MsbBitsOfValue(six);
    Assoc([EncodeChar(v)], more, tail);
    ReadChar(p, EncodeChar(v), more + tail, v);
  }

  lemma ReadChar(p: seq<bool>, c: char, rest: string, v: nat)
    requires |p| < 8 && v < 64 && DecodeChar(c) == Some(v) && c != '=' && !IsSpace(c)
    ensures Read(p, [c] + rest) == Read(p + MsbBits(v, 6), rest)
  {
    hide DecodeChar, IsSpace, MsbBits;
    assert ([c] + rest)[1..] == rest;
  }

  /** At least eight bits, pending or still to be read, give their byte. */
  lemma {:induction false} ReadByte(p: seq<bool>, bits: seq<bool>, tail: string, b: byte, more: seq<bool>)
    returns (q: seq<bool>, left: seq<bool>)
    requires p + bits == MsbBits(b, 8) + more && |bits| % 6 == 0
    ensures q + left == more && |left| % 6 == 0
    ensures Read(p, Sextets(bits) + tail) == Byte(b, q, Sextets(left) + tail)
    decreases |bits|
  {
    hide Sextets, MsbBits;
    if |p| >= 8 {
      assert p[..8] == (p + bits)[..8] == MsbBits(b, 8);
      Pow2Values();
      MsbRoundTrip(b, 8);
      q, left := p[8..], bits;
      assert q + left == (p + bits)[8..] == more;
    } else {
      assert |bits| >= 6;
      ReadSextet(p, bits, tail);
      assert p + bits[..6] + bits[6..] == p + bits;
      q, left := ReadByte(p + bits[..6], bits[6..], tail, b, more);
    }
  }

  /** What is left of an encoding in the middle of reading gives the bytes that are left. */
  lemma {:induction false} ReadRest(p: seq<bool>, bits: seq<bool>, bytes: seq<byte>, n: nat)
    requires p + bits == ByteBits(bytes) + ZeroBits(Fill(n)) && |bits| % 6 == 0
    ensures ReadAll(p, Sextets(bits) + Pads(n)) == Some(bytes)
    decreases |bytes|
  {
    hide MsbBits, Read;
    if bytes == [] {
      ReadEnd(p, bits, n);
    } else {
      assert p + bits == MsbBits(bytes[0], 8) + (ByteBits(bytes[1..]) + ZeroBits(Fill(n)));
      var q, left := ReadByte(p, bits, Pads(n), bytes[0], ByteBits(bytes[1..]) + ZeroBits(Fill(n)));
      ReadRest(q, left, bytes[1..], n);
      assert bytes == [bytes[0]] + bytes[1..];
    }
  }

  lemma ReadEnd(p: seq<bool>, bits: seq<bool>, n: nat)
    requires p + bits == ZeroBits(Fill(n)) && |bits| % 6 == 0
    ensures Read(p, Sextets(bits) + Pads(n)) == End
  {
    assert bits == [] && Sextets(bits) == "";
    assert "" + Pads(n) == Pads(n);
  }

  /** Decoding the encoding of any bytes gives the bytes. */
  lemma Base64RoundTrip(bytes: seq<byte>)
    ensures ReadAll([], Encoded(bytes)) == Some(bytes)
  {
    var bits := ByteBits(bytes) + ZeroBits(Fill(|bytes|));
    assert [] + bits == bits;
    WholeSextets(|bytes|);
    ReadRest([], bits, bytes, |bytes|);
  }

  lemma WholeSextets(n: nat)
    ensures (8 * n + Fill(n)) % 6 == 0
  {
    var q := n / 3;
    assert n == 3 * q + n % 3;
    assert 8 * n + Fill(n) == 6 * (4 * q) + (8 * (n % 3) + Fill(n));
  }

  // ---- bits at the low end of a 32-bit number ----

  const TWO32: nat := 0x1_0000_0000

  lemma Pow32()
    ensures Pow2(32) == TWO32
  {
    Pow2Values();
    assert Pow2(16) == 65536;
    Pow2Add(16, 16);
  }

  /** Only the low bits count. */
  lemma {:induction false} MsbLow(n: nat, hi: nat, k: nat, len: nat)
    requires len <= k
    ensures MsbBits(n + Shl(hi, k), len) == MsbBits(n, len)
  {
    if len > 0 {
      assert (n + Shl(hi, k)) / 2 == n / 2 + Shl(hi, k - 1);
      MsbLow(n / 2, hi, k - 1, len - 1);
    }
  }

  lemma Wrapped(v: nat, len: nat)
    requires len <= 32
    ensures MsbBits(v % TWO32, len) == MsbBits(v, len)
  {
    Pow32();
    ShlMul(v / TWO32, 32);
    MsbLow(v % TWO32, v / TWO32, 32, len);
  }

  lemma {:induction false} MsbSplit(n: nat, len: nat, k: nat)
    ensures MsbBits(n, len + k) == MsbBits(Shr(n, k), len) + MsbBits(n, k)
  {
    if k > 0 {
      MsbSplit(n / 2, len, k - 1);
      Assoc(MsbBits(Shr(n, k), len), MsbBits(n / 2, k - 1), [n % 2 == 1]);
    }
  }

  /** The low six bits, whatever is above them. */
  lemma MsbModulo(n: nat, len: nat)
    ensures MsbValue(MsbBits(n, len)) == n % Pow2(len)
  {
    hide Shl, Shr, MsbBits, MsbValue, Pow2;
    var lo := SplitLow(n, len);
    MsbLow(lo, Shr(n, len), len, len);
    MsbRoundTrip(lo, len);
    ShlMul(Shr(n, len), len);
    DivisionParts(Shr(n, len), Pow2(len), lo);
  }

  /** A shift to the left by k and k new bits, in 32 bits. */
  lemma ShiftIn(buffer: nat, len: nat, k: nat, n: nat)
    requires len + k <= 32 && n < Pow2(k)
    ensures MsbBits((Shl(buffer, k) + n) % TWO32, len + k) == MsbBits(buffer, len) + MsbBits(n, k)
  {
    Wrapped(Shl(buffer, k) + n, len + k);
    MsbConcat(buffer, len, n, k);
  }

  // ---- the encoding by the words of RFC 4648 ----

  const UPPER: string := "ABCDEFGHIJKLMNOPQRSTUVWXYZ"
  const LOWER: string := "abcdefghijklmnopqrstuvwxyz"
  const DIGITS: string := "0123456789"

  /** Table 1. */
  const ALPHABET: string := UPPER + LOWER + DIGITS + "+/"

  lemma LettersInOrder()
    ensures forall k :: 0 <= k < 26 ==> UPPER[k] as nat == 'A' as nat + k
    ensures forall k :: 0 <= k < 26 ==> LOWER[k] as nat == 'a' as nat + k
  {
  }

  lemma DigitsInOrder()
    ensures forall k :: 0 <= k < 10 ==> DIGITS[k] as nat == '0' as nat + k
  {
  }

  lemma AlphabetParts(k: nat)
    requires k < 64
    ensures |ALPHABET| == 64
    ensures ALPHABET[k] == if k < 26 then UPPER[k] else if k < 52 then LOWER[k - 26]
                           else if k < 62 then DIGITS[k - 52] else if k == 62 then '+' else '/'
  {
  }

  /** Every value has its character of the table. */
  lemma CharOfAlphabet(n: nat)
    requires n < 64
    ensures |ALPHABET| == 64 && EncodeChar(n) == ALPHABET[n]
  {
    AlphabetParts(n);
    if n < 52 {
      LettersInOrder();
    } else {
      DigitsInOrder();
    }
  }

  /** A character decodes if and only if it is in the table, and then to its place there. */
  lemma ValueInAlphabet(c: char)
    ensures DecodeChar(c).Some? <==> c in ALPHABET
    ensures DecodeChar(c).Some? ==> |ALPHABET| == 64 && ALPHABET[DecodeChar(c).value] == c
  {
    CharOfAlphabet(0);
    if DecodeChar(c).Some? { CharOfAlphabet(DecodeChar(c).value); }
    if c in ALPHABET {
      var k :| 0 <= k < |ALPHABET| && ALPHABET[k] == c;
      CharOfAlphabet(k);
      CharRoundTrip(k);
    }
  }

  function Letter(n: nat): char
    requires n < 64
  {
    CharOfAlphabet(n);
    ALPHABET[n]
  }

  lemma SplitByte(b: byte, hi: nat, k: nat, lo: nat)
    requires k <= 8 && b == hi * Pow2(k) + lo && lo < Pow2(k)
    ensures MsbBits(b, 8) == MsbBits(hi, 8 - k) + MsbBits(lo, k)
  {
    MsbConcat(hi, 8 - k, lo, k);
    ShlMul(hi, k);
  }

  lemma JoinSix(hi: nat, len: nat, lo: nat)
    requires len <= 6 && lo < Pow2(6 - len)
    ensures MsbBits(hi, len) + MsbBits(lo, 6 - len) == MsbBits(hi * Pow2(6 - len) + lo, 6)
  {
    MsbConcat(hi, len, lo, 6 - len);
    ShlMul(hi, 6 - len);
  }

  lemma Powers()
    ensures Pow2(2) == 4 && Pow2(4) == 16 && Pow2(6) == 64 && Pow2(8) == 256
  {
    assert Pow2(8) == 256;
  }

  lemma OneSextet(n: nat, rest: seq<bool>)
    requires n < 64
    ensures Sextets(MsbBits(n, 6) + rest) == [Letter(n)] + Sextets(rest)
  {
    hide MsbBits, MsbValue;
    var bits := MsbBits(n, 6) + rest;
    Powers();
    MsbRoundTrip(n, 6);
    assert bits[..6] == MsbBits(n, 6) && bits[6..] == rest;
    CharOfAlphabet(n);
    SextetsStep(bits);
  }

  lemma SplitFirst(a: byte)
    ensures MsbBits(a, 8) == MsbBits(a / 4, 6) + MsbBits(a % 4, 2)
  {
    Powers();
    hide MsbBits, Pow2;
    SplitByte(a, a / 4, 2, a % 4);
  }

  lemma SplitSecond(b: byte)
    ensures MsbBits(b, 8) == MsbBits(b / 16, 4) + MsbBits(b % 16, 4)
  {
    Powers();
    hide MsbBits, Pow2;
    SplitByte(b, b / 16, 4, b % 16);
  }

  lemma SplitThird(c: byte)
    ensures MsbBits(c, 8) == MsbBits(c / 64, 2) + MsbBits(c % 64, 6)
  {
    Powers();
    hide MsbBits, Pow2;
    SplitByte(c, c / 64, 6, c % 64);
  }

  lemma JoinBytes(a: byte, b: byte, c: byte)
    ensures MsbBits(a % 4, 2) + MsbBits(b / 16, 4) == MsbBits(a % 4 * 16 + b / 16, 6)
    ensures MsbBits(b % 16, 4) + MsbBits(c / 64, 2) == MsbBits(b % 16 * 4 + c / 64, 6)
  {
    Powers();
    hide MsbBits, Pow2;
    JoinSix(a % 4, 2, b / 16);
    JoinSix(b % 16, 4, c / 64);
  }

  /** The six-bit groups of three bytes. */
  lemma GroupBits(a: byte, b: byte, c: byte)
    ensures MsbBits(a, 8) + MsbBits(b, 8) + MsbBits(c, 8) ==
      MsbBits(a / 4, 6) + MsbBits(a % 4 * 16 + b / 16, 6) + MsbBits(b % 16 * 4 + c / 64, 6) + MsbBits(c % 64, 6)
  {
    hide MsbBits;
    SplitFirst(a);
    SplitSecond(b);
    SplitThird(c);
    JoinBytes(a, b, c);
    Regroup(MsbBits(a / 4, 6), MsbBits(a % 4, 2), MsbBits(b / 16, 4), MsbBits(b % 16, 4), MsbBits(c / 64, 2),
            MsbBits(c % 64, 6));
  }

  lemma Regroup<T>(a: seq<T>, b: seq<T>, c: seq<T>, d: seq<T>, e: seq<T>, f: seq<T>)
    ensures a + b + (c + d) + (e + f) == a + (b + c) + (d + e) + f
  {
  }

  lemma FourSextets(w: nat, x: nat, y: nat, z: nat, bits: seq<bool>)
    requires w < 64 && x < 64 && y < 64 && z < 64
    ensures Sextets(MsbBits(w, 6) + MsbBits(x, 6) + MsbBits(y, 6) + MsbBits(z, 6) + bits) ==
      [Letter(w), Letter(x), Letter(y), Letter(z)] + Sextets(bits)
  {
    hide MsbBits, Sextets, Letter;
    var a, b, c, d := MsbBits(w, 6), MsbBits(x, 6), MsbBits(y, 6), MsbBits(z, 6);
    assert a + b + c + d + bits == a + (b + (c + (d + bits)));
    OneSextet(w, b + (c + (d + bits)));
    OneSextet(x, c + (d + bits));
    OneSextet(y, d + bits);
    OneSextet(z, bits);
  }

  /** Three bytes make four characters, and the encoding goes on behind them. */
  lemma EncodedGroup(a: byte, b: byte, c: byte, rest: seq<byte>)
    ensures Encoded([a, b, c] + rest) ==
      [Letter(a / 4), Letter(a % 4 * 16 + b / 16), Letter(b % 16 * 4 + c / 64), Letter(c % 64)] + Encoded(rest)
  {
    hide MsbBits, ByteBits, ZeroBits, Sextets, Letter;
    var bits := ByteBits(rest) + ZeroBits(Fill(|rest|));
    GroupBits(a, b, c);
    ThreeBytes(a, b, c, rest);
    Assoc(MsbBits(a, 8) + MsbBits(b, 8) + MsbBits(c, 8), ByteBits(rest), ZeroBits(Fill(|rest|)));
    FourSextets(a / 4, a % 4 * 16 + b / 16, b % 16 * 4 + c / 64, c % 64, bits);
    assert (|rest| + 3) % 3 == |rest| % 3;
  }

  lemma ThreeBytes(a: byte, b: byte, c: byte, rest: seq<byte>)
    ensures ByteBits([a, b, c] + rest) == MsbBits(a, 8) + MsbBits(b, 8) + MsbBits(c, 8) + ByteBits(rest)
  {
    hide ByteBits, MsbBits;
    ByteBitsCons(a, [b, c] + rest);
    ByteBitsCons(b, [c] + rest);
    ByteBitsCons(c, rest);
    assert [a] + ([b, c] + rest) == [a, b, c] + rest && [b] + ([c] + rest) == [b, c] + rest;
  }

  lemma NoSextets()
    ensures Sextets([]) == "" && Encoded([]) == ""
  {
    ByteBitsEmpty();
  }

  lemma OneByte(a: byte)
    ensures ByteBits([a]) == MsbBits(a, 8)
  {
    ByteBitsEmpty();
    ByteBitsCons(a, []);
    assert [a] + [] == [a];
  }

  /** One byte that is left is filled up with four zero bits and two pads. */
  lemma EncodedOne(a: byte)
    ensures Encoded([a]) == [Letter(a / 4), Letter(a % 4 * 16), '=', '=']
  {
    hide MsbBits, ByteBits, Letter, Sextets;
    OneByte(a);
    OneEnd(a);
    NoSextets();
    var x := MsbBits(a % 4 * 16, 6);
    assert x + [] == x;
    OneSextet(a / 4, x);
    OneSextet(a % 4 * 16, []);
  }

  lemma OneEnd(a: byte)
    ensures MsbBits(a, 8) + ZeroBits(4) == MsbBits(a / 4, 6) + MsbBits(a % 4 * 16, 6)
  {
    Powers();
    MsbZero(4);
    hide MsbBits, Pow2, ZeroBits;
    SplitFirst(a);
    JoinSix(a % 4, 2, 0);
    Assoc(MsbBits(a / 4, 6), MsbBits(a % 4, 2), ZeroBits(4));
  }

  /** Two bytes with two zero bits and one pad. */
  lemma EncodedTwo(a: byte, b: byte)
    ensures Encoded([a, b]) == [Letter(a / 4), Letter(a % 4 * 16 + b / 16), Letter(b % 16 * 4), '=']
  {
    hide MsbBits, ByteBits, Letter, Sextets;
    OneByte(b);
    ByteBitsCons(a, [b]);
    assert [a] + [b] == [a, b];
    TwoEnds(a, b);
    NoSextets();
    var x, y := MsbBits(a % 4 * 16 + b / 16, 6), MsbBits(b % 16 * 4, 6);
    assert y + [] == y;
    OneSextet(a / 4, x + y);
    OneSextet(a % 4 * 16 + b / 16, y);
    OneSextet(b % 16 * 4, []);
  }

  /** As three bytes would, of which the last is 0. */
  lemma TwoEnds(a: byte, b: byte)
    ensures MsbBits(a, 8) + MsbBits(b, 8) + ZeroBits(2) ==
      MsbBits(a / 4, 6) + (MsbBits(a % 4 * 16 + b / 16, 6) + MsbBits(b % 16 * 4, 6))
  {
    hide MsbBits, ZeroBits;
    GroupBits(a, b, 0);
    TwoEndsOf(a, b, a / 4, a % 4 * 16 + b / 16, b % 16 * 4);
  }

  lemma TwoEndsOf(a: byte, b: byte, w: nat, x: nat, y: nat)
    requires MsbBits(a, 8) + MsbBits(b, 8) + MsbBits(0, 8) ==
      MsbBits(w, 6) + MsbBits(x, 6) + MsbBits(y, 6) + MsbBits(0, 6)
    ensures MsbBits(a, 8) + MsbBits(b, 8) + ZeroBits(2) == MsbBits(w, 6) + (MsbBits(x, 6) + MsbBits(y, 6))
  {
    LastZeros();
    hide MsbBits, ZeroBits;
    WithoutEnd(MsbBits(a, 8) + MsbBits(b, 8), ZeroBits(2), MsbBits(w, 6), MsbBits(x, 6), MsbBits(y, 6), ZeroBits(6));
  }

  lemma LastZeros()
    ensures MsbBits(0, 8) == ZeroBits(2) + ZeroBits(6) && MsbBits(0, 6) == ZeroBits(6)
  {
    MsbZero(8);
    MsbZero(6);
  }

  lemma WithoutEnd<T>(ab: seq<T>, c: seq<T>, w: seq<T>, x: seq<T>, y: seq<T>, z: seq<T>)
    requires ab + (c + z) == w + x + y + z
    ensures ab + c == w + (x + y)
  {
    Assoc(ab, c, z);
    Assoc(w, x, y);
    SameFront(ab + c, w + (x + y), z);
  }

  lemma SameFront<T>(a: seq<T>, b: seq<T>, z: seq<T>)
    requires a + z == b + z
    ensures a == b
  {
    assert |a + z| == |b + z|;
    assert (a + z)[..|a|] == a && (b + z)[..|b|] == b;
  }

  const SPACES: string := "\t\n\U{000B}\U{000C}\r \U{00A0}\U{1680}\U{2028}\U{2029}\U{202F}\U{205F}\U{3000}\U{FEFF}"

  /** What the reader passes over is the white space of ECMAScript and nothing else. */
  lemma Spaces(c: char)
    ensures IsSpace(c) <==> c in SPACES || '\U{2000}' <= c <= '\U{200A}'
  {
  }

  predicate LegalChar(c: char) {
    c != '=' && (c in ALPHABET || c in SPACES || '\U{2000}' <= c <= '\U{200A}')
  }

  ghost predicate Legal(s: string) {
    forall i :: 0 <= i < |s| ==> LegalChar(s[i])
  }

  lemma PassedOver(c: char)
    requires c != '=' && (IsSpace(c) || DecodeChar(c).Some?)
    ensures LegalChar(c)
  {
    Spaces(c);
    ValueInAlphabet(c);
  }

  /** How much of the text one read takes: only characters of the table and white space, up to the padding or the end
      when it finds no byte. */
  lemma {:induction false} ReadLegal(bits: seq<bool>, s: string) returns (k: nat)
    requires !Read(bits, s).Error?
    ensures k <= |s| && Legal(s[..k])
    ensures Read(bits, s).Byte? ==> Read(bits, s).rest == s[k..]
    ensures Read(bits, s).End? ==> k == |s| || s[k] == '='
    decreases |s|
  {
    hide Legal, LegalChar, IsSpace, DecodeChar, MsbBits, MsbValue, Read;
    ReadStep(bits, s);
    NothingLegal();
    if |bits| >= 8 || s == "" || s[0] == '=' {
      k := 0;
      assert s[..0] == "" && s[0..] == s;
    } else {
      PassedOver(s[0]);
      var tail := s[1..];
      var more := if IsSpace(s[0]) then bits else bits + MsbBits(DecodeChar(s[0]).value, 6);
      var n := ReadLegal(more, tail);
      k := n + 1;
      TailSlices(s, tail, n);
      LegalCons(s[0], tail[..n]);
    }
  }

  lemma TailSlices(s: string, tail: string, n: nat)
    requires s != "" && tail == s[1..] && n <= |tail|
    ensures s[..n + 1] == [s[0]] + tail[..n] && s[n + 1..] == tail[n..]
    ensures n < |tail| ==> s[n + 1] == tail[n]
  {
  }

  lemma NothingLegal()
    ensures Legal("")
  {
  }

  lemma LegalCons(c: char, s: string)
    requires Legal(s) && LegalChar(c)
    ensures Legal([c] + s)
  {
    hide LegalChar;
  }

  lemma TwoPrefixes(s: string, k: nat, n: nat)
    requires k <= |s| && n <= |s| - k
    ensures s[..k + n] == s[..k] + s[k..][..n]
    ensures k + n < |s| ==> s[k + n] == s[k..][n]
  {
  }

  /** A text that is read without an exception has nothing else before its padding. */
  lemma {:induction false} ReadAllLegal(bits: seq<bool>, s: string) returns (k: nat)
    requires ReadAll(bits, s).Some?
    ensures k <= |s| && Legal(s[..k]) && (k == |s| || s[k] == '=')
    decreases |bits| + 6 * |s|
  {
    hide Legal, Read;
    k := ReadLegal(bits, s);
    var r := Read(bits, s);
    if r.Byte? {
      var n := ReadAllLegal(r.bits, r.rest);
      TwoPrefixes(s, k, n);
      LegalAppend(s[..k], s[k..][..n]);
      k := k + n;
    }
  }

  lemma LegalAppend(a: string, b: string)
    requires Legal(a) && Legal(b)
    ensures Legal(a + b)
  {
    hide LegalChar;
  }
}
