/** What ISO/IEC 18004 says of the data of a symbol, in its own numbers: capacities (table 7), examples (sections 7.4.3
    to 7.4.5), pad code words (section 7.4.10), and that the table of blocks is determined by tables 7 and 9. */
module QrStandard {
  import opened Prelude
  import opened Bits
  import opened QrBuffer
  import opened QrSegments
  import opened QrDecode
  import opened Codewords
  import opened QrTables
  import opened QrBlocks
  import opened QrReadable

  // ---- how long a segment is ----

  /** Ten bits for three digits, and four or seven for the rest. */
  function DigitsSize(n: nat): nat {
    10 * (n / 3) + if n % 3 == 0 then 0 else if n % 3 == 1 then 4 else 7
  }

  lemma {:induction false} NumericSize(d: string)
    requires AllDigits(d)
    ensures |NumericBits(d)| == DigitsSize(|d|)
  {
    if d != "" {
      var k := if |d| < 3 then |d| else 3;
      NumericSize(d[k..]);
    }
  }

  /** Eleven bits for two characters, and six for the last. */
  function CharsSize(n: nat): nat {
    11 * (n / 2) + 6 * (n % 2)
  }

  lemma {:induction false} AlphaNumSize(s: string)
    requires AllCodes(s)
    ensures |AlphaNumBits(s)| == CharsSize(|s|)
  {
    if |s| > 1 { AlphaNumSize(s[2..]); }
  }

  lemma OneSegment(s: Segment, version: nat)
    requires Legal(s) && 1 <= version <= 40
    ensures |StreamBits([s], version)| == 4 + CountWidth(Mode(s), version).value + |Content(s)|
  {
    hide MsbBits, Content;
    SameWidths(Mode(s), version);
    assert [s][1..] == [];
  }

  // ---- capacities ----

  /** So many digits, characters or bytes fit a symbol, and not one more. */
  ghost predicate Holds(version: nat, level: Level, digits: nat, chars: nat, bytes: nat)
    requires 1 <= version <= 40
  {
    && (forall d {:trigger Numeric(d)} :: AllDigits(d) ==>
          (|StreamBits([Numeric(d)], version)| <= Capacity(version, level) <==> |d| <= digits))
    && (forall s {:trigger AlphaNum(s)} :: AllCodes(s) ==>
          (|StreamBits([AlphaNum(s)], version)| <= Capacity(version, level) <==> |s| <= chars))
    && (forall b {:trigger Segment.Bytes(b)} ::
          |StreamBits([Segment.Bytes(b)], version)| <= Capacity(version, level) <==> |b| <= bytes)
  }

  /** So many bits of content fit n units if and only if n is at most the limit. */
  ghost predicate Limit(size: nat -> nat, bits: int, limit: nat) {
    forall n: nat :: size(n) <= bits <==> n <= limit
  }

  lemma CapacityIs(version: nat, level: Level)
    requires 1 <= version <= 40
    ensures Capacity(version, level) == 8 * Standard(version, level).data
  {
    RowFits(version, level);
  }

  lemma DigitsHold(version: nat, level: Level, digits: nat, d: string)
    requires 1 <= version <= 40 && AllDigits(d)
    requires Limit(DigitsSize, 8 * Standard(version, level).data - 4 - CountWidth(1, version).value, digits)
    ensures |StreamBits([Numeric(d)], version)| <= Capacity(version, level) <==> |d| <= digits
  {
    hide StreamBits, Capacity, CountWidth, Standard, NumericBits, DigitsSize;
    CapacityIs(version, level);
    NumericSize(d);
    OneSegment(Numeric(d), version);
  }

  lemma CharsHold(version: nat, level: Level, chars: nat, s: string)
    requires 1 <= version <= 40 && AllCodes(s)
    requires Limit(CharsSize, 8 * Standard(version, level).data - 4 - CountWidth(2, version).value, chars)
    ensures |StreamBits([AlphaNum(s)], version)| <= Capacity(version, level) <==> |s| <= chars
  {
    hide StreamBits, Capacity, CountWidth, Standard, AlphaNumBits, CharsSize;
    CapacityIs(version, level);
    AlphaNumSize(s);
    OneSegment(AlphaNum(s), version);
  }

  lemma BytesHold(version: nat, level: Level, bytes: nat, b: seq<byte>)
    requires 1 <= version <= 40
    requires 8 * bytes <= 8 * Standard(version, level).data - 4 - CountWidth(4, version).value < 8 * (bytes + 1)
    ensures |StreamBits([Segment.Bytes(b)], version)| <= Capacity(version, level) <==> |b| <= bytes
  {
    hide StreamBits, Capacity, CountWidth, Standard, ByteBits;
    CapacityIs(version, level);
    OneSegment(Segment.Bytes(b), version);
  }

  lemma DigitsLimit(bits: int, digits: nat)
    requires DigitsSize(digits) <= bits < DigitsSize(digits + 1)
    ensures Limit(DigitsSize, bits, digits)
  {
    forall n: nat
      ensures DigitsSize(n) <= bits <==> n <= digits
    {
      if n <= digits {
        DigitsMonotone(n, digits);
      } else {
        DigitsMonotone(digits + 1, n);
      }
    }
  }

  lemma DigitsMonotone(m: nat, n: nat)
    requires m <= n
    ensures DigitsSize(m) <= DigitsSize(n)
  {
  }

  lemma CharsLimit(bits: int, chars: nat)
    requires CharsSize(chars) <= bits < CharsSize(chars + 1)
    ensures Limit(CharsSize, bits, chars)
  {
    forall n: nat
      ensures CharsSize(n) <= bits <==> n <= chars
    {
      if n <= chars {
        CharsMonotone(n, chars);
      } else {
        CharsMonotone(chars + 1, n);
      }
    }
  }

  lemma CharsMonotone(m: nat, n: nat)
    requires m <= n
    ensures CharsSize(m) <= CharsSize(n)
  {
  }

  lemma HoldsExactly(version: nat, level: Level, data: nat, digits: nat, chars: nat, bytes: nat)
    requires 1 <= version <= 40 && Standard(version, level).data == data
    requires DigitsSize(digits) <= 8 * data - 4 - CountWidth(1, version).value < DigitsSize(digits + 1)
    requires CharsSize(chars) <= 8 * data - 4 - CountWidth(2, version).value < CharsSize(chars + 1)
    requires 8 * bytes <= 8 * data - 4 - CountWidth(4, version).value < 8 * (bytes + 1)
    ensures Holds(version, level, digits, chars, bytes)
  {
    hide Limit, DigitsSize, CharsSize, Standard, Capacity, StreamBits, AllDigits, AllCodes;
    DigitsLimit(8 * data - 4 - CountWidth(1, version).value, digits);
    CharsLimit(8 * data - 4 - CountWidth(2, version).value, chars);
    forall d | AllDigits(d)
      ensures |StreamBits([Numeric(d)], version)| <= Capacity(version, level) <==> |d| <= digits
    {
      DigitsHold(version, level, digits, d);
    }
    forall s | AllCodes(s)
      ensures |StreamBits([AlphaNum(s)], version)| <= Capacity(version, level) <==> |s| <= chars
    {
      CharsHold(version, level, chars, s);
    }
    forall b
      ensures |StreamBits([Segment.Bytes(b)], version)| <= Capacity(version, level) <==> |b| <= bytes
    {
      BytesHold(version, level, bytes, b);
    }
  }

  /** Capacities of the standard on either side of the borders between the widths. */
  lemma Capacities()
    ensures Holds(1, L, 41, 25, 17) && Holds(9, L, 552, 335, 230)
    ensures Holds(10, L, 652, 395, 271) && Holds(26, L, 3283, 1990, 1367)
    ensures Holds(27, L, 3517, 2132, 1465) && Holds(40, L, 7089, 4296, 2953)
  {
    hide Holds;
    HoldsExactly(1, L, 19, 41, 25, 17);
    HoldsExactly(9, L, 232, 552, 335, 230);
    HoldsExactly(10, L, 274, 652, 395, 271);
    HoldsExactly(26, L, 1370, 3283, 1990, 1367);
    HoldsExactly(27, L, 1468, 3517, 2132, 1465);
    HoldsExactly(40, L, 2956, 7089, 4296, 2953);
  }

  /** And of the levels. */
  lemma LevelCapacities()
    ensures Holds(1, M, 34, 20, 14) && Holds(1, Q, 27, 16, 11) && Holds(1, H, 17, 10, 7)
    ensures Holds(40, M, 5596, 3391, 2331) && Holds(40, Q, 3993, 2420, 1663) && Holds(40, H, 3057, 1852, 1273)
  {
    hide Holds;
    HoldsExactly(1, M, 16, 34, 20, 14);
    HoldsExactly(1, Q, 13, 27, 16, 11);
    HoldsExactly(1, H, 9, 17, 10, 7);
    HoldsExactly(40, M, 2334, 5596, 3391, 2331);
    HoldsExactly(40, Q, 1666, 3993, 2420, 1663);
    HoldsExactly(40, H, 1276, 3057, 1852, 1273);
  }

  // ---- examples ----

  lemma SegmentAlone(s: Segment, version: nat)
    requires Legal(s) && 1 <= version <= 40
    ensures StreamBits([s], version) ==
      MsbBits(Mode(s), 4) + MsbBits(Count(s), CountWidth(Mode(s), version).value) + Content(s)
  {
    hide MsbBits, Content;
    SameWidths(Mode(s), version);
    assert [s][1..] == [];
  }

  lemma NumberSnoc(s: string, c: char)
    requires AllDigits(s) && IsDigit(c)
    ensures Number(s + [c]) == 10 * Number(s) + Digit(c)
  {
    assert (s + [c])[..|s|] == s;
  }

  lemma NumericGroups(head: string, tail: string)
    requires AllDigits(head) && AllDigits(tail) && 1 <= |head| <= 3 && (|head| < 3 ==> tail == "")
    ensures NumericBits(head + tail) == MsbBits(Number(head), GroupBits(|head|)) + NumericBits(tail)
  {
    hide MsbBits, Number;
    assert (head + tail)[..|head|] == head && (head + tail)[|head|..] == tail;
  }

  lemma ExampleNumbers()
    ensures Number("012") == 12 && Number("345") == 345 && Number("67") == 67
  {
    assert Number("") == 0;
    NumberSnoc("", '0');
    NumberSnoc("0", '1');
    NumberSnoc("01", '2');
    NumberSnoc("", '3');
    NumberSnoc("3", '4');
    NumberSnoc("34", '5');
    NumberSnoc("", '6');
    NumberSnoc("6", '7');
  }

  /** The example of section 7.4.3: 012, 345 and 67 behind the mode and the count. */
  lemma NumericExample()
    ensures Legal(Numeric("01234567"))
    ensures StreamBits([Numeric("01234567")], 1) ==
            MsbBits(1, 4) + MsbBits(8, 10) + (MsbBits(12, 10) + (MsbBits(345, 10) + MsbBits(67, 7)))
  {
    hide MsbBits, NumericBits, StreamBits, Number;
    ExampleNumbers();
    NumericGroups("012", "34567");
    NumericGroups("345", "67");
    NumericGroups("67", "");
    NumericEmpty();
    assert "012" + "34567" == "01234567" && "345" + "67" == "34567" && "67" + "" == "67";
    assert MsbBits(67, 7) + [] == MsbBits(67, 7);
    SegmentAlone(Numeric("01234567"), 1);
  }

  lemma AlphaNumGroups(a: char, b: char, tail: string)
    requires GetCode(a).Some? && GetCode(b).Some? && AllCodes(tail)
    ensures AllCodes([a, b] + tail)
    ensures AlphaNumBits([a, b] + tail) == MsbBits(Code(a) * 45 + Code(b), 11) + AlphaNumBits(tail)
  {
    hide MsbBits, GetCode;
    var s := [a, b] + tail;
    assert s[2..] == tail && s[0] == a && s[1] == b;
  }

  /** The example of section 7.4.4: AC, -4 and 2. */
  lemma AlphaNumExample()
    ensures Legal(AlphaNum("AC-42"))
    ensures StreamBits([AlphaNum("AC-42")], 1) ==
            MsbBits(2, 4) + MsbBits(5, 9) + (MsbBits(462, 11) + (MsbBits(1849, 11) + MsbBits(2, 6)))
  {
    hide MsbBits, AlphaNumBits, StreamBits;
    assert ['A', 'C'] + "-42" == "AC-42" && ['-', '4'] + "2" == "-42";
    AlphaNumGroups('A', 'C', "-42");
    AlphaNumGroups('-', '4', "2");
    AlphaNumLast("2", 0);
    assert "2"[0..] == "2";
    SegmentAlone(AlphaNum("AC-42"), 1);
  }

  // ---- what follows the segments ----

  /** The j-th group of eight behind the first one. */
  lemma GroupBehind(head: seq<bool>, rest: seq<bool>, j: nat)
    requires |head| == 8 && 0 < j && 8 * j <= |rest|
    ensures (head + rest)[8 * j..8 * j + 8] == rest[8 * (j - 1)..8 * (j - 1) + 8]
  {
  }

  lemma {:induction false} PadWord(k: nat, even: bool, j: nat)
    requires j < k
    ensures PadWords(k, even)[8 * j..8 * j + 8] == MsbBits(if (j % 2 == 0) == even then 236 else 17, 8)
  {
    hide MsbBits;
    var head, rest := MsbBits(if even then 0xEC else 0x11, 8), PadWords(k - 1, !even);
    assert PadWords(k, even) == head + rest;
    if j == 0 {
      assert (head + rest)[0..8] == head;
    } else {
      PadWord(k - 1, !even, j - 1);
      GroupBehind(head, rest, j);
    }
  }

  lemma ByteFromBits(bytes: seq<byte>, i: nat, v: nat)
    requires i < |bytes| && v < 256 && ByteBits(bytes)[8 * i..8 * i + 8] == MsbBits(v, 8)
    ensures bytes[i] == v
  {
    ByteSlice(bytes, i);
    assert Pow2(8) == 256;
    MsbRoundTrip(v, 8);
    MsbRoundTrip(bytes[i], 8);
  }

  lemma {:induction false} ByteSlice(bytes: seq<byte>, i: nat)
    requires i < |bytes|
    ensures ByteBits(bytes)[8 * i..8 * i + 8] == MsbBits(bytes[i], 8)
  {
    hide MsbBits;
    var head, rest := MsbBits(bytes[0], 8), ByteBits(bytes[1..]);
    if i == 0 {
      assert (head + rest)[0..8] == head;
    } else {
      ByteSlice(bytes[1..], i - 1);
      GroupBehind(head, rest, i);
    }
  }

  /** The bytes up to the one with the end of the terminator. */
  function Used(bits: nat): nat {
    (bits + 4 + 7) / 8
  }

  lemma PadZero(bits: seq<bool>, n: nat, i: nat)
    requires |bits| <= i < 8 * n && i < 8 * Used(|bits|)
    ensures !Padded(bits, n)[i]
  {
    hide PadWords, Slack;
    var t := bits + ZeroBits(Min(4, 8 * n - |bits|));
    var b := t + ZeroBits(Slack(|t|));
    SlackFits(|t|, n);
    assert Padded(bits, n) == b + PadWords((8 * n - |b|) / 8, true);
    SlackUsed(|bits|);
    assert i < |b| && !b[i];
  }

  /** The segments come first, and then zeros up to a whole byte behind the terminator. */
  lemma ZerosBehind(list: seq<Segment>, version: nat, n: nat, i: nat)
    requires 1 <= version <= 40 && AllLegal(list) && |StreamBits(list, version)| <= 8 * n
    ensures |Payload(list, version, n)| == n && StreamBits(list, version) <= ByteBits(Payload(list, version, n))
    ensures |StreamBits(list, version)| <= i < 8 * n && i < 8 * Used(|StreamBits(list, version)|) ==>
      !ByteBits(Payload(list, version, n))[i]
  {
    hide StreamBits, Padded, Payload, ByteBits;
    var bits := StreamBits(list, version);
    PayloadBits(list, version, n);
    if |bits| <= i < 8 * n && i < 8 * Used(|bits|) { PadZero(bits, n, i); }
  }

  /** And then the pad code words 236 and 17 in turn. */
  lemma PadBytes(list: seq<Segment>, version: nat, n: nat, i: nat)
    requires 1 <= version <= 40 && AllLegal(list) && |StreamBits(list, version)| <= 8 * n
    requires Used(|StreamBits(list, version)|) <= i < n
    ensures |Payload(list, version, n)| == n
    ensures Payload(list, version, n)[i] == if (i - Used(|StreamBits(list, version)|)) % 2 == 0 then 236 else 17
  {
    hide StreamBits, PadWords, MsbBits, Payload, ByteBits, Slack;
    var bits := StreamBits(list, version);
    var used := Used(|bits|);
    PayloadBits(list, version, n);
    var p := Padded(bits, n);
    var t := bits + ZeroBits(4);
    var b := t + ZeroBits(Slack(|t|));
    SlackFits(|t|, n);
    assert p == b + PadWords((8 * n - |b|) / 8, true);
    SlackUsed(|bits|);
    PadWord((8 * n - |b|) / 8, true, i - used);
    assert p[8 * i..8 * i + 8] == PadWords((8 * n - |b|) / 8, true)[8 * (i - used)..8 * (i - used) + 8];
    ByteFromBits(Payload(list, version, n), i, if (i - used) % 2 == 0 then 236 else 17);
  }

  lemma SlackUsed(len: nat)
    ensures len + 4 + Slack(len + 4) == 8 * Used(len)
  {
  }

  /** The code words of one byte at version 1 and level L. */
  lemma OneByteExample(i: nat)
    requires i < 19
    ensures |StreamBits([Segment.Bytes([0x41])], 1)| == 20 && |Payload([Segment.Bytes([0x41])], 1, 19)| == 19
    ensures Payload([Segment.Bytes([0x41])], 1, 19)[i] ==
      [0x40, 0x14, 0x10, 0xEC, 0x11, 0xEC, 0x11, 0xEC, 0x11, 0xEC, 0x11, 0xEC, 0x11, 0xEC, 0x11, 0xEC, 0x11, 0xEC,
       0x11][i]
  {
    hide StreamBits, MsbBits, Payload, ByteBits;
    var list := [Segment.Bytes([0x41])];
    SegmentAlone(list[0], 1);
    OneByteBits();
    if i >= 3 {
      PadBytes(list, 1, 19, i);
    } else {
      OneByteStart(list, i);
    }
  }

  lemma OneByteBits()
    ensures ByteBits([0x41]) == MsbBits(0x41, 8)
  {
    ByteBitsEmpty();
    ByteBitsCons(0x41, []);
    assert [0x41] + [] == [0x41];
  }

  /** The four bits of the mode and the count of eight lie across the bytes. */
  lemma OneByteStart(list: seq<Segment>, i: nat)
    requires i < 3 && list == [Segment.Bytes([0x41])]
    requires StreamBits(list, 1) == MsbBits(4, 4) + MsbBits(1, 8) + MsbBits(0x41, 8)
    ensures |Payload(list, 1, 19)| == 19 && Payload(list, 1, 19)[i] == [0x40, 0x14, 0x10][i]
  {
    hide StreamBits, MsbBits, Payload, ByteBits;
    var p := ByteBits(Payload(list, 1, 19));
    ZerosBehind(list, 1, 19, 20);
    ZerosBehind(list, 1, 19, 21);
    ZerosBehind(list, 1, 19, 22);
    ZerosBehind(list, 1, 19, 23);
    MsbConcat(4, 4, 0, 4);
    MsbConcat(0, 4, 1, 4);
    MsbConcat(1, 4, 4, 4);
    MsbConcat(4, 4, 1, 4);
    MsbConcat(1, 4, 0, 4);
    ShlMul(4, 4);
    ShlMul(0, 4);
    ShlMul(1, 4);
    assert Pow2(4) == 16;
    MsbZero(4);
    var bits := MsbBits(4, 4) + MsbBits(1, 8) + MsbBits(0x41, 8);
    assert p[..20] == bits;
    assert p[0..8] == MsbBits(4, 4) + MsbBits(0, 4);
    assert p[8..16] == MsbBits(1, 4) + MsbBits(4, 4);
    assert p[16..24] == MsbBits(1, 4) + ZeroBits(4);
    ByteFromBits(Payload(list, 1, 19), i, [0x40, 0x14, 0x10][i]);
  }

  // ---- the characters and their codes ----

  const DIGITS: string := "0123456789"
  const LETTERS: string := "ABCDEFGHIJKLMNOPQRSTUVWXYZ"
  const SIGNS: string := " $%*+-./:"

  /** The characters of table 5 in the order of their codes. */
  const TABLE: string := DIGITS + LETTERS + SIGNS

  lemma DigitsInOrder()
    ensures forall k :: 0 <= k < 10 ==> DIGITS[k] as nat == '0' as nat + k
  {
  }

  lemma LettersInOrder()
    ensures forall k :: 0 <= k < 26 ==> LETTERS[k] as nat == 'A' as nat + k
  {
  }

  lemma SignsInOrder()
    ensures forall k :: 0 <= k < 9 ==> GetCode(SIGNS[k]) == Some(36 + k)
  {
  }

  lemma TableParts(k: nat)
    requires k < 45
    ensures |TABLE| == 45
    ensures TABLE[k] == if k < 10 then DIGITS[k] else if k < 36 then LETTERS[k - 10] else SIGNS[k - 36]
  {
  }

  lemma CodeInTable(k: nat)
    requires k < 45
    ensures |TABLE| == 45 && GetCode(TABLE[k]) == Some(k)
  {
    TableParts(k);
    if k < 10 {
      DigitsInOrder();
    } else if k < 36 {
      LettersInOrder();
    } else {
      SignsInOrder();
    }
  }

  /** A character has a code if and only if it is in the table, and then it is its place there. */
  lemma CodesOfTable(c: char)
    ensures GetCode(c).Some? <==> c in TABLE
    ensures GetCode(c).Some? ==> GetCode(c).value < 45 == |TABLE| && TABLE[GetCode(c).value] == c
  {
    TableParts(0);
    if GetCode(c).Some? {
      CodeOfChar(c);
      var k := GetCode(c).value;
      CodeInTable(k);
      CodeOfChar(TABLE[k]);
    }
    if c in TABLE {
      var k :| 0 <= k < |TABLE| && TABLE[k] == c;
      CodeInTable(k);
    }
  }

  // ---- the rows of the block table ----

  /** How many blocks are one data code word longer. */
  function Longer(row: seq<Group>): nat {
    if |row| == 2 then row[1].count else 0
  }

  lemma OneGroup(g: Group)
    ensures RowBlocks([g]) == g.count && RowTotal([g]) == g.count * g.totalCount
    ensures RowData([g]) == g.count * g.dataCount
  {
    assert [g][1..] == [];
  }

  lemma EvenSums(row: seq<Group>)
    requires Even(row)
    ensures RowBlocks(row) == row[0].count + Longer(row)
    ensures RowTotal(row) == row[0].totalCount * RowBlocks(row) + Longer(row)
    ensures RowData(row) == row[0].dataCount * RowBlocks(row) + Longer(row)
  {
    OneGroup(row[0]);
    if |row| == 1 {
      assert row == [row[0]];
    } else {
      OneGroup(row[1]);
      assert row[1..] == [row[1]];
    }
  }

  lemma EvenParts(row: seq<Group>)
    requires Even(row)
    ensures RowBlocks(row) == row[0].count + Longer(row) > 0
    ensures RowTotal(row) / RowBlocks(row) == row[0].totalCount && RowTotal(row) % RowBlocks(row) == Longer(row)
    ensures RowData(row) / RowBlocks(row) == row[0].dataCount
  {
    hide RowBlocks, RowTotal, RowData, Longer;
    EvenSums(row);
    DivisionParts(row[0].totalCount, RowBlocks(row), Longer(row));
    DivisionParts(row[0].dataCount, RowBlocks(row), Longer(row));
  }

  /** An even row is determined by its code words, its data code words and its blocks: at every version and level by the
      room of the symbol and the two tables. */
  lemma EvenRow(a: seq<Group>, b: seq<Group>)
    requires Even(a) && Even(b)
    requires RowTotal(a) == RowTotal(b) && RowData(a) == RowData(b) && RowBlocks(a) == RowBlocks(b)
    ensures a == b
  {
    hide RowBlocks, RowTotal, RowData;
    EvenParts(a);
    EvenParts(b);
  }
}
