/** qrBitBuffer of win/qrcodegen.js: a growing byte array, filled from the most significant bit. */
module QrBuffer {
  import opened Prelude
  import opened Bits

  /** Up to eight bits, at the top of a byte. */
  function PartialByte(bits: seq<bool>): (b: byte)
    requires |bits| <= 8
  {
    PartialByteBound(bits);
    Shl(MsbValue(bits), 8 - |bits|)
  }

  lemma PartialByteBound(bits: seq<bool>)
    requires |bits| <= 8
    ensures Shl(MsbValue(bits), 8 - |bits|) < 256
  {
    MsbValueBound(bits);
    assert Pow2(8) == 256;
    Pow2Positive(8 - |bits|);
    ShlBound(MsbValue(bits), |bits|, 0, 8 - |bits|);
  }

  lemma Pow2Positive(k: nat)
    ensures 0 < Pow2(k)
  {
  }

  /** The bytes that hold a string of bits, the last one filled up with zeros. */
  function PackBits(bits: seq<bool>): (bytes: seq<byte>) {
    if bits == [] then []
    else if |bits| <= 8 then [PartialByte(bits)]
    else [PartialByte(bits[..8])] + PackBits(bits[8..])
  }

  function ByteBits(bytes: seq<byte>): (bits: seq<bool>)
    ensures |bits| == 8 * |bytes|
  {
    if bytes == [] then [] else MsbBits(bytes[0], 8) + ByteBits(bytes[1..])
  }

  lemma PartialByteBits(bits: seq<bool>)
    requires |bits| <= 8
    ensures MsbBits(PartialByte(bits), 8) == bits + ZeroBits(8 - |bits|)
  {
    Pow2Positive(8 - |bits|);
    MsbConcat(MsbValue(bits), |bits|, 0, 8 - |bits|);
    MsbBitsOfValue(bits);
    MsbZero(8 - |bits|);
  }

  lemma {:induction false} MsbZero(len: nat)
    ensures MsbBits(0, len) == ZeroBits(len)
  {
    if len > 0 { MsbZero(len - 1); }
  }

  /** The zeros at the end of the last byte. */
  function Slack(n: nat): (k: nat)
    ensures k < 8 && (n + k) % 8 == 0
  {
    (8 - n % 8) % 8
  }

  /** The bytes read back as the bits and zeros up to a whole byte. */
  lemma {:induction false} PackBitsRoundTrip(bits: seq<bool>)
    ensures ByteBits(PackBits(bits)) == bits + ZeroBits(Slack(|bits|))
  {
    hide PartialByte, MsbBits, ByteBits;
    if bits == [] {
      ByteBitsEmpty();
      assert bits + ZeroBits(0) == bits;
    } else if |bits| <= 8 {
      PartialByteBits(bits);
      ByteBitsEmpty();
      ByteBitsCons(PartialByte(bits), []);
      assert bits + ZeroBits(8 - |bits|) + [] == bits + ZeroBits(8 - |bits|);
      assert [PartialByte(bits)] + [] == [PartialByte(bits)];
      assert Slack(|bits|) == 8 - |bits|;
    } else {
      var rest := bits[8..];
      PackBitsRoundTrip(rest);
      PartialByteBits(bits[..8]);
      ByteBitsCons(PartialByte(bits[..8]), PackBits(rest));
      assert bits[..8] + ZeroBits(0) == bits[..8];
      assert bits == bits[..8] + rest;
      Assoc(bits[..8], rest, ZeroBits(Slack(|rest|)));
      SlackEight(|rest|);
    }
  }

  lemma SlackEight(n: nat)
    ensures Slack(n + 8) == Slack(n)
  {
  }

  lemma ByteBitsEmpty()
    ensures ByteBits([]) == []
  {
  }

  lemma ByteBitsCons(b: byte, rest: seq<byte>)
    ensures ByteBits([b] + rest) == MsbBits(b, 8) + ByteBits(rest)
  {
    assert ([b] + rest)[1..] == rest;
  }

  lemma {:induction false} PackBitsLength(bits: seq<bool>)
    ensures |PackBits(bits)| == (|bits| + 7) / 8
  {
    if |bits| > 8 { PackBitsLength(bits[8..]); }
  }

  /** The or of putBit adds one bit behind those of the byte. */
  lemma PartialByteOr(bits: seq<bool>, bit: bool)
    requires |bits| < 8
    ensures PartialByte(bits + [bit]) == if bit then Or(PartialByte(bits), Shr(128, |bits|)) else PartialByte(bits)
  {
    hide Or, MsbValue;
    var v, k := MsbValue(bits), 7 - |bits|;
    MsbValueSnoc(bits, bit);
    ShlDouble(v, k);
    if bit {
      ShrTop(|bits|);
      ShlSum(2 * v, 1, k);
      OrShl(v, k);
    }
  }

  lemma MsbValueSnoc(bits: seq<bool>, bit: bool)
    ensures MsbValue(bits + [bit]) == 2 * MsbValue(bits) + if bit then 1 else 0
  {
    assert (bits + [bit])[..|bits|] == bits;
  }

  lemma ShlDouble(v: nat, k: nat)
    ensures Shl(v, k + 1) == Shl(2 * v, k)
  {
    ShlAdd(v, 1, k);
    assert Shl(v, 1) == 2 * Shl(v, 0);
  }

  lemma ShrTop(j: nat)
    requires j < 8
    ensures Shr(128, j) == Shl(1, 7 - j)
  {
    ShlMul(1, 7);
    assert Pow2(7) == 128;
    var k := 7 - j;
    ShlAdd(1, k, j);
    Pow2Positive(j);
    ShrConcat(Shl(1, k), j, 0);
  }

  lemma OrShl(v: nat, k: nat)
    ensures Or(Shl(2 * v, k), Shl(1, k)) == Shl(2 * v, k) + Shl(1, k)
  {
    ShlDouble(v, k);
    ShlMul(1, k);
    OrDisjoint(v, k + 1, Shl(1, k));
  }

  /** Adding one bit changes the last byte, or starts a new one. */
  lemma {:induction false} PackSnoc(bits: seq<bool>, bit: bool)
    ensures |bits| % 8 == 0 ==> PackBits(bits + [bit]) == PackBits(bits) + [PartialByte([bit])]
    ensures |bits| % 8 != 0 ==> |PackBits(bits)| == |bits| / 8 + 1
    ensures |bits| % 8 != 0 ==> PackBits(bits)[|bits| / 8] == PartialByte(bits[8 * (|bits| / 8)..])
    ensures |bits| % 8 != 0 ==>
      PackBits(bits + [bit]) == PackBits(bits)[|bits| / 8 := PartialByte(bits[8 * (|bits| / 8)..] + [bit])]
  {
    hide PartialByte;
    if |bits| < 8 {
      assert bits[0..] == bits;
      assert bits == [] ==> bits + [bit] == [bit];
    } else {
      var rest := bits[8..];
      PackSnoc(rest, bit);
      assert (bits + [bit])[8..] == rest + [bit];
      assert (bits + [bit])[..8] == bits[..8];
      assert |bits| / 8 == |rest| / 8 + 1;
      assert bits[8 * (|bits| / 8)..] == rest[8 * (|rest| / 8)..];
      if |bits| == 8 {
        assert bits[..8] == bits && rest == [];
      }
    }
  }

  class QrBitBuffer {
    var buffer: seq<byte>
    var length: nat
    ghost var bits: seq<bool>

    ghost predicate Valid()
      reads this
    {
      buffer == PackBits(bits) && length == |bits|
    }

    constructor ()
      ensures Valid() && bits == []
    {
      buffer, length, bits := [], 0, [];
    }

    method PutBit(bit: bool)
      requires Valid()
      modifies this
      ensures Valid() && bits == old(bits) + [bit]
    {
      hide Or, PackBits, PartialByte, Shr;
      var bufIndex := length / 8;
      ghost var tail := bits[8 * (|bits| / 8)..];
      PackSnoc(bits, bit);
      PackBitsLength(bits);
      PartialByteOr(tail, bit);
      PartialByteEmpty();
      assert tail + [bit] == if |bits| % 8 == 0 then [bit] else tail + [bit];
      if |buffer| <= bufIndex {
        buffer := buffer + [0];
      }
      assert buffer[bufIndex] == PartialByte(tail);
      if bit {
        PartialByteBoundOf(tail + [bit]);
        buffer := buffer[bufIndex := Or(buffer[bufIndex], Shr(0x80, length % 8))];
      }
      length, bits := length + 1, bits + [bit];
    }

    /** The low bits of num, the most significant of them first; the shift works on 32 bits. */
    method Put(num: nat, len: nat)
      requires Valid() && num < Pow2(32) && len <= 32
      modifies this
      ensures Valid() && bits == old(bits) + MsbBits(num, len)
    {
      var i := 0;
      while i < len
        invariant i <= len && Valid()
        invariant bits == old(bits) + MsbBits(num, len)[..i]
      {
        MsbBitAt(num, len, i);
        PutBit(Shr(num, len - i - 1) % 2 == 1);
        i := i + 1;
      }
      assert MsbBits(num, len)[..len] == MsbBits(num, len);
    }

    method GetAt(index: nat) returns (bit: bool)
      requires Valid() && index < length
      ensures bit == bits[index]
    {
      var bufIndex := index / 8;
      PackBitsLength(bits);
      PackBitsRoundTrip(bits);
      ByteBitAt(buffer, index);
      bit := Shr(buffer[bufIndex], 7 - index % 8) % 2 == 1;
    }
  }

  lemma PartialByteEmpty()
    ensures PartialByte([]) == 0
  {
    ShlMul(0, 8);
  }

  lemma PartialByteBoundOf(bits: seq<bool>)
    requires |bits| <= 8
    ensures 0 <= PartialByte(bits) < 256
  {
  }

  lemma {:induction false} MsbBitAt(num: nat, len: nat, i: nat)
    requires i < len
    ensures MsbBits(num, len)[i] == (Shr(num, len - i - 1) % 2 == 1)
  {
    if i < len - 1 { MsbBitAt(num / 2, len - 1, i); }
  }

  lemma {:induction false} ByteBitAt(bytes: seq<byte>, index: nat)
    requires index < 8 * |bytes|
    ensures ByteBits(bytes)[index] == (Shr(bytes[index / 8], 7 - index % 8) % 2 == 1)
  {
    if index < 8 {
      MsbBitAt(bytes[0], 8, index);
    } else {
      ByteBitAt(bytes[1..], index - 8);
    }
  }
}
