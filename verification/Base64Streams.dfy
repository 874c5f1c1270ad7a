/** base64EncodeOutputStream and base64DecodeInputStream of win/qrcodegen.js, with their 32-bit buffers. */
module Base64Streams {
  import opened Prelude
  import opened Bits
  import opened QrBuffer
  import opened Base64

  lemma {:induction false} SextetsSnoc(p: seq<bool>, six: seq<bool>)
    requires |p| % 6 == 0 && |six| == 6
    ensures MsbValue(six) < 64 && Sextets(p + six) == Sextets(p) + [EncodeChar(MsbValue(six))]
    decreases |p|
  {
    hide MsbValue, EncodeChar;
    SextetBound(six);
    if |p| == 0 {
      assert p + six == six && six[..6] == six && six[6..] == [];
    } else {
      assert |p| >= 6;
      assert (p + six)[..6] == p[..6] && (p + six)[6..] == p[6..] + six;
      SextetsSnoc(p[6..], six);
    }
  }

  /** The first six of the pending bits, as writeEncoded masks them. */
  lemma TopSextet(buffer: nat, k: nat)
    ensures MsbBits(buffer, 6 + k) == MsbBits(Shr(buffer, k), 6) + MsbBits(buffer, k)
    ensures MsbValue(MsbBits(Shr(buffer, k), 6)) == Shr(buffer, k) % 64
  {
    MsbSplit(buffer, 6, k);
    MsbModulo(Shr(buffer, k), 6);
    assert Pow2(6) == 64;
  }

  /** What has been written and what is pending. */
  ghost predicate Holds(text: string, done: seq<bool>, buffer: nat, buflen: nat, bytes: seq<byte>) {
    |done| % 6 == 0 && text == Sextets(done) && buffer < TWO32 && ByteBits(bytes) == done + MsbBits(buffer, buflen)
  }

  lemma {:induction false} ByteBitsAppend(a: seq<byte>, b: byte)
    ensures ByteBits(a + [b]) == ByteBits(a) + MsbBits(b, 8)
  {
    hide MsbBits;
    if a == [] {
      assert [] + [b] == [b] && [b][1..] == [];
    } else {
      assert (a + [b])[1..] == a[1..] + [b];
      ByteBitsAppend(a[1..], b);
      Assoc(MsbBits(a[0], 8), ByteBits(a[1..]), MsbBits(b, 8));
    }
  }

  lemma HoldsByte(text: string, done: seq<bool>, buffer: nat, buflen: nat, bytes: seq<byte>, b: byte)
    requires Holds(text, done, buffer, buflen, bytes) && buflen < 6
    ensures Holds(text, done, (Shl(buffer, 8) + b) % TWO32, buflen + 8, bytes + [b])
  {
    hide Sextets, MsbBits, Shl, ByteBits;
    ByteBitsAppend(bytes, b);
    Pow2Values();
    ShiftIn(buffer, buflen, 8, b);
    Assoc(done, MsbBits(buffer, buflen), MsbBits(b, 8));
  }

  lemma HoldsSextet(text: string, done: seq<bool>, buffer: nat, buflen: nat, bytes: seq<byte>)
    requires Holds(text, done, buffer, buflen, bytes) && buflen >= 6
    ensures Holds(text + [EncodeChar(Shr(buffer, buflen - 6) % 64)],
                  done + MsbBits(Shr(buffer, buflen - 6), 6), buffer, buflen - 6, bytes)
  {
    hide Sextets, MsbBits, Shr, ByteBits, EncodeChar, MsbValue;
    var k := buflen - 6;
    TopSextet(buffer, k);
    SextetsSnoc(done, MsbBits(Shr(buffer, k), 6));
    Assoc(done, MsbBits(Shr(buffer, k), 6), MsbBits(buffer, k));
  }

  /** The last character carries the pending bits and zeros. */
  lemma HoldsEnd(text: string, done: seq<bool>, buffer: nat, buflen: nat, bytes: seq<byte>)
    requires Holds(text, done, buffer, buflen, bytes) && buflen < 6
    ensures buflen == 0 ==> text == Sextets(ByteBits(bytes) + ZeroBits(Fill(|bytes|)))
    ensures buflen > 0 ==>
      text + [EncodeChar(Shl(buffer, 6 - buflen) % TWO32 % 64)] == Sextets(ByteBits(bytes) + ZeroBits(Fill(|bytes|)))
  {
    hide Sextets, ByteBits, EncodeChar, MsbValue, MsbBits, Shl;
    PendingCount(|done|, buflen, |bytes|);
    if buflen == 0 {
      assert done + MsbBits(buffer, 0) + ZeroBits(0) == done;
    } else {
      var k := 6 - buflen;
      var six := MsbBits(Shl(buffer, k) % TWO32, 6);
      Pow2Positive(k);
      ShiftIn(buffer, buflen, k, 0);
      MsbZero(k);
      MsbModulo(Shl(buffer, k) % TWO32, 6);
      Pow2Values();
      SextetsSnoc(done, six);
      Assoc(done, MsbBits(buffer, buflen), ZeroBits(k));
    }
  }

  lemma PendingCount(d: nat, buflen: nat, n: nat)
    requires d % 6 == 0 && buflen < 6 && d + buflen == 8 * n
    ensures buflen == 0 ==> Fill(n) == 0
    ensures buflen > 0 ==> Fill(n) == 6 - buflen
  {
    PendingParts(d / 6, buflen, n / 3, n % 3);
  }

  /** m sextets and a rest, out of q groups of three bytes and r bytes more. */
  lemma PendingParts(m: nat, buflen: nat, q: nat, r: nat)
    requires buflen < 6 && r < 3 && 6 * m + buflen == 24 * q + 8 * r
    ensures buflen == if r == 0 then 0 else if r == 1 then 2 else 4
  {
    assert 6 * (m - 4 * q) == 8 * r - buflen;
  }

  class EncodeStream {
    var buffer: nat
    var buflen: nat
    var length: nat
    var base64: string
    ghost var done: seq<bool>
    ghost var bytes: seq<byte>

    ghost predicate Valid()
      reads this
    {
      buflen < 6 && length == |bytes| && Holds(base64, done, buffer, buflen, bytes)
    }

    constructor ()
      ensures Valid() && bytes == []
    {
      buffer, buflen, length, base64, done, bytes := 0, 0, 0, "", [], [];
    }

    method WriteEncoded(b: nat)
      modifies this`base64
      ensures base64 == old(base64) + [EncodeChar(b % 64)]
    {
      base64 := base64 + [EncodeChar(b % 64)];
    }

    method WriteByte(n: int)
      requires Valid()
      modifies this
      ensures Valid() && bytes == old(bytes) + [n % 256]
    {
      hide Holds, Shl, Shr;
      ghost var all := bytes + [n % 256];
      HoldsByte(base64, done, buffer, buflen, bytes, n % 256);
      buffer := (Shl(buffer, 8) + n % 256) % TWO32;
      buflen, length, bytes := buflen + 8, length + 1, all;
      while buflen >= 6
        invariant length == |bytes| && bytes == all && Holds(base64, done, buffer, buflen, bytes)
      {
        HoldsSextet(base64, done, buffer, buflen, bytes);
        done := done + MsbBits(Shr(buffer, buflen - 6), 6);
        WriteEncoded(Shr(buffer, buflen - 6));
        buflen := buflen - 6;
      }
    }

    /** Called once, at the end. */
    method Flush()
      requires Valid()
      modifies this
      ensures base64 == Encoded(old(bytes))
    {
      hide Sextets, Shl, EncodeChar;
      HoldsEnd(base64, done, buffer, buflen, bytes);
      ghost var text := Sextets(ByteBits(bytes) + ZeroBits(Fill(|bytes|)));
      if buflen > 0 {
        WriteEncoded(Shl(buffer, 6 - buflen) % TWO32);
        buffer, buflen := 0, 0;
      }
      assert base64 == text && text + "" == text;
      if length % 3 != 0 {
        var padlen := 3 - length % 3;
        for i := 0 to padlen
          invariant base64 == text + "=="[..i]
        {
          assert "=="[..i + 1] == "=="[..i] + "=";
          base64 := base64 + "=";
        }
        assert "=="[..padlen] == Pads(|old(bytes)|);
      }
    }
  }

  datatype Reading = Value(b: byte) | EndOfText

  class DecodeStream {
    const str: string
    var pos: nat
    var buffer: nat
    var buflen: nat

    predicate Valid()
      reads this
    {
      pos <= |str| && buflen < 14 && buffer < TWO32
    }

    /** The bits read but not handed out. */
    function Pending(): seq<bool>
      reads this
    {
      MsbBits(buffer, buflen)
    }

    constructor (str: string)
      ensures Valid() && this.str == str && Pending() == [] && pos == 0
    {
      this.str, pos, buffer, buflen := str, 0, 0, 0;
    }

    /** read: a byte, or the end (-1), or an exception. */
    method ReadByte() returns (r: Result<Reading, ()>)
      requires Valid()
      modifies this
      ensures Valid()
      ensures match Read(old(Pending()), str[old(pos)..])
        case End => r == Ok(EndOfText)
        case Error => r.Err?
        case Byte(b, bits, rest) => r == Ok(Value(b)) && Pending() == bits && str[pos..] == rest
    {
      hide DecodeChar, IsSpace, Read, MsbBits;
      ghost var outcome := Read(Pending(), str[pos..]);
      while buflen < 8
        invariant Valid() && Read(Pending(), str[pos..]) == outcome
        decreases |str| - pos
      {
        ReadStep(Pending(), str[pos..]);
        if pos >= |str| {
          NoBits(buffer, buflen);
          if buflen == 0 { return Ok(EndOfText); }
          return Err(());
        }
        var c := str[pos];
        assert str[pos..][1..] == str[pos + 1..];
        pos := pos + 1;
        if c == '=' {
          buflen := 0;
          return Ok(EndOfText);
        } else if IsSpace(c) {
          continue;
        }
        var v := DecodeChar(c);
        if v.None? { return Err(()); }
        Pow2Values();
        ShiftIn(buffer, buflen, 6, v.value);
        buffer := (Shl(buffer, 6) + v.value) % TWO32;
        buflen := buflen + 6;
      }
      ReadStep(Pending(), str[pos..]);
      TopByte(buffer, buflen - 8);
      var n := Shr(buffer, buflen - 8) % 256;
      buflen := buflen - 8;
      r := Ok(Value(n));
    }
  }

  lemma NoBits(buffer: nat, buflen: nat)
    ensures MsbBits(buffer, buflen) == [] <==> buflen == 0
  {
  }

  lemma TopByte(buffer: nat, k: nat)
    ensures MsbBits(buffer, 8 + k)[8..] == MsbBits(buffer, k)
    ensures MsbValue(MsbBits(buffer, 8 + k)[..8]) == Shr(buffer, k) % 256
  {
    hide MsbBits, MsbValue, Shr;
    MsbSplit(buffer, 8, k);
    MsbModulo(Shr(buffer, k), 8);
    Pow2Values();
    var a, b := MsbBits(Shr(buffer, k), 8), MsbBits(buffer, k);
    assert (a + b)[..8] == a && (a + b)[8..] == b;
  }

  /** The whole way, over both streams. */
  method EncodeAll(data: seq<byte>) returns (text: string)
    ensures text == Encoded(data)
  {
    var e := new EncodeStream();
    var i := 0;
    while i < |data|
      invariant i <= |data| && e.Valid() && fresh(e) && e.bytes == data[..i]
    {
      e.WriteByte(data[i]);
      i := i + 1;
    }
    assert data[..i] == data;
    e.Flush();
    text := e.base64;
  }

  method DecodeAll(text: string) returns (r: Result<seq<byte>, ()>)
    ensures match ReadAll([], text) case None => r.Err? case Some(bytes) => r == Ok(bytes)
  {
    hide Read, MsbBits;
    var d := new DecodeStream(text);
    var bytes: seq<byte> := [];
    ghost var all := ReadAll([], text);
    assert text[0..] == text;
    assert all.Some? ==> bytes + all.value == all.value;
    while true
      invariant d.Valid() && fresh(d) && d.str == text
      invariant var rest := ReadAll(d.Pending(), text[d.pos..]);
        all == if rest.None? then None else Some(bytes + rest.value)
      decreases d.buflen + 6 * (|text| - d.pos)
    {
      ghost var bits, left := d.Pending(), text[d.pos..];
      ReadAllStep(bits, left);
      var b := d.ReadByte();
      if b.Err? { return Err(()); }
      if b.value.EndOfText? {
        assert bytes + [] == bytes;
        return Ok(bytes);
      }
      ghost var rest := ReadAll(d.Pending(), text[d.pos..]);
      if rest.Some? { Assoc(bytes, [b.value.b], rest.value); }
      bytes := bytes + [b.value.b];
    }
  }

  lemma ReadAllStep(bits: seq<bool>, s: string)
    ensures match Read(bits, s)
      case End => ReadAll(bits, s) == Some([])
      case Error => ReadAll(bits, s) == None
      case Byte(b, more, rest) =>
        |more| + 6 * |rest| < |bits| + 6 * |s|
        && ReadAll(bits, s) == match ReadAll(more, rest) case None => None case Some(r) => Some([b] + r)
  {
  }
}
