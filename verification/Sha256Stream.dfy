/** The streaming SHA-256 of win/swarmstate-node.c: a context with a 64-byte buffer, against the whole-message hash. */
module Sha256Stream {
  import opened Prelude
  import opened Bits
  import opened Sha256

  /** What a context holds of the bytes fed so far: whole blocks in h, the rest in the buffer. */
  ghost predicate Holds(h: State, buf: seq<byte>, buflen: nat, fed: seq<byte>) {
    && |buf| == BLOCK && buflen < BLOCK && |fed| % BLOCK == buflen
    && (|fed| - buflen) % BLOCK == 0
    && h == Absorb(fed[..|fed| - buflen])
    && buf[..buflen] == fed[|fed| - buflen..]
  }

  lemma HoldsNothing(buf: seq<byte>)
    requires |buf| == BLOCK
    ensures Holds(INITIAL, buf, 0, [])
  {
  }

  /** Some bytes more that do not fill the buffer. */
  lemma HoldsMore(h: State, buf: seq<byte>, buflen: nat, fed: seq<byte>, chunk: seq<byte>, buf': seq<byte>)
    requires Holds(h, buf, buflen, fed) && buflen + |chunk| < BLOCK && |buf'| == BLOCK
    requires buf'[..buflen] == buf[..buflen] && buf'[buflen..buflen + |chunk|] == chunk
    ensures Holds(h, buf', buflen + |chunk|, fed + chunk)
  {
    hide Absorb;
    var n := |fed| - buflen;
    assert (fed + chunk)[..n] == fed[..n];
    assert (fed + chunk)[n..] == fed[n..] + chunk;
    assert buf'[..buflen + |chunk|] == buf'[..buflen] + chunk;
    Remainder(|fed|, buflen, |chunk|);
  }

  lemma Remainder(n: nat, r: nat, k: nat)
    requires n % BLOCK == r && r + k <= BLOCK
    ensures r + k < BLOCK ==> (n + k) % BLOCK == r + k
    ensures r + k == BLOCK ==> (n + k) % BLOCK == 0
  {
  }

  /** The bytes that fill it. */
  lemma HoldsBlock(h: State, buf: seq<byte>, buflen: nat, fed: seq<byte>, chunk: seq<byte>, buf': seq<byte>)
    requires Holds(h, buf, buflen, fed) && buflen + |chunk| == BLOCK && |buf'| == BLOCK
    requires buf'[..buflen] == buf[..buflen] && buf'[buflen..] == chunk
    ensures Holds(Compress(h, buf'), buf', 0, fed + chunk)
  {
    hide Absorb, Compress;
    var n, all := |fed| - buflen, fed + chunk;
    Remainder(|fed|, buflen, |chunk|);
    assert all[..n] == fed[..n];
    assert all[n..] == fed[n..] + chunk;
    assert buf' == buf'[..buflen] + chunk;
    AbsorbBlock(all, n);
    assert all[..|all| - 0] == all;
  }

  lemma AbsorbBlock(data: seq<byte>, n: nat)
    requires |data| == n + BLOCK && n % BLOCK == 0
    ensures |data| % BLOCK == 0 && Absorb(data) == Compress(Absorb(data[..n]), data[n..])
  {
    Remainder(n, 0, BLOCK);
  }

  class Context {
    var h: State
    /** Counts in 64 bits. */
    var len: nat
    const buf: array<byte>
    var buflen: nat
    /** All bytes given to Update so far. */
    ghost var fed: seq<byte>

    ghost predicate Valid()
      reads this, buf
    {
      buf.Length == BLOCK && buflen < BLOCK && Holds(h, buf[..], buflen, fed) && len == Low64(|fed|)
    }

    /** sha256_init */
    constructor ()
      ensures Valid() && fed == [] && fresh(buf)
    {
      h, len, buflen, fed := INITIAL, 0, 0, [];
      buf := new byte[BLOCK](_ => 0);
      new;
      HoldsNothing(buf[..]);
    }

    /** sha256_block: the schedule in an array, the rounds on eight variables. */
    method Block()
      requires buf.Length == BLOCK
      modifies this`h
      ensures h == Compress(old(h), buf[..])
    {
      var w := FillSchedule(buf[..]);
      h := AllRounds(h, w, buf[..]);
    }

    /** sha256_update */
    method Update(data: seq<byte>)
      requires Valid()
      modifies this, buf
      ensures Valid() && fed == old(fed) + data
    {
      hide Holds, Low64;
      AddLength(|fed|, |data|);
      len := Low64(len + |data|);
      FeedAll(data);
    }

    /** The loop of sha256_update. */
    method FeedAll(data: seq<byte>)
      requires buf.Length == BLOCK && buflen < BLOCK && Holds(h, buf[..], buflen, fed)
      modifies this`h, this`buflen, this`fed, buf
      ensures buflen < BLOCK && Holds(h, buf[..], buflen, fed)
      ensures fed == old(fed) + data
    {
      hide Holds;
      ghost var was := fed;
      var p := 0;
      assert data[..0] == [] && was + [] == was;
      while p < |data|
        invariant p <= |data| && fed == was + data[..p]
        invariant buflen < BLOCK && Holds(h, buf[..], buflen, fed)
      {
        p := Take(data, p, was);
      }
      assert data[..p] == data;
    }

    /** One turn of the loop of sha256_update. */
    method Take(data: seq<byte>, p: nat, ghost was: seq<byte>) returns (next: nat)
      requires p < |data| && fed == was + data[..p]
      requires buf.Length == BLOCK && buflen < BLOCK && Holds(h, buf[..], buflen, fed)
      modifies this`h, this`buflen, this`fed, buf
      ensures p < next <= |data| && fed == was + data[..next]
      ensures buflen < BLOCK && Holds(h, buf[..], buflen, fed)
    {
      hide Holds, Compress;
      var take := BLOCK - buflen;
      if take > |data| - p { take := |data| - p; }
      ghost var before, chunk := buf[..], data[p..p + take];
      CopyIn(data, p, take);
      var filled := buflen + take;
      ghost var n := buflen;
      fed := fed + chunk;
      assert data[..p + take] == data[..p] + chunk;
      next := p + take;
      if filled == BLOCK {
        assert buf[..][n..] == buf[n..n + take];
        HoldsBlock(h, before, n, was + data[..p], chunk, buf[..]);
        Block();
        buflen := 0;
      } else {
        HoldsMore(h, before, n, was + data[..p], chunk, buf[..]);
        buflen := filled;
      }
    }

    /** memcpy(buf + buflen, p, take) */
    method CopyIn(data: seq<byte>, p: nat, take: nat)
      requires buf.Length == BLOCK && buflen + take <= BLOCK && p + take <= |data|
      modifies buf
      ensures buf[..buflen] == old(buf[..buflen])
      ensures buf[buflen..buflen + take] == data[p..p + take]
    {
      for i := 0 to take
        invariant buf[..buflen + i] == old(buf[..buflen]) + data[p..p + i]
      {
        buf[buflen + i] := data[p + i];
        assert data[p..p + i + 1] == data[p..p + i] + [data[p + i]];
      }
      assert buf[..buflen + take][..buflen] == buf[..buflen];
      assert buf[..buflen + take][buflen..] == buf[buflen..buflen + take];
    }

    /** sha256_final: the padding goes through Update, and its loop stops at offset 56. */
    method Final() returns (out: seq<byte>)
      requires Valid()
      modifies this, buf
      ensures out == Hash(old(fed))
      ensures fed == Padded(old(fed)) && buflen == 0 && h == Absorb(fed)
    {
      hide Absorb, Padded, Compress, Digest, PadZeros, Low64;
      ghost var msg := fed;
      BitCount(|msg|);
      var bits := Low64(len * 8);
      AppendPadding();
      var lenb := LengthBytes(bits);
      Update(lenb);
      PaddedParts(msg);
      assert fed == Padded(msg);
      WholeBlocks(fed, buflen);
      out := DigestOf(h);
    }

    /** The byte 0x80 and zeros up to offset 56. */
    method AppendPadding()
      requires Valid()
      modifies this, buf
      ensures Valid() && fed == old(fed) + [0x80] + Zeros(PadZeros(|old(fed)|))
    {
      hide Holds, PadZeros, Low64;
      ghost var msg := fed;
      Update([0x80]);
      ghost var k := 0;
      assert Zeros(0) == [] && msg + [0x80] + [] == msg + [0x80];
      while buflen != 56
        invariant Valid() && k <= PadZeros(|msg|) && fed == msg + [0x80] + Zeros(k)
        decreases PadZeros(|msg|) - k
      {
        Offset(msg, k);
        Update([0]);
        assert Zeros(k) + [0] == Zeros(k + 1);
        k := k + 1;
      }
      Offset(msg, k);
    }

    lemma Offset(msg: seq<byte>, k: nat)
      requires Valid() && k <= PadZeros(|msg|) && fed == msg + [0x80] + Zeros(k)
      ensures buflen == 56 <==> k == PadZeros(|msg|)
    {
      OffsetReached(|msg|, k, buflen);
    }
  }

  lemma AddLength(n: nat, k: nat)
    ensures Low64(Low64(n) + k) == Low64(n + k)
  {
    var q := n / TWO64;
    assert n == q * TWO64 + n % TWO64;
    Wraps(n % TWO64 + k, q);
  }

  lemma {:induction false} Wraps(a: nat, q: nat)
    ensures (a + q * TWO64) % TWO64 == a % TWO64
  {
    if q > 0 {
      Wraps(a, q - 1);
      var b := a + (q - 1) * TWO64;
      assert a + q * TWO64 == b + TWO64;
    }
  }

  lemma BitCount(n: nat)
    ensures Low64(Low64(n) * 8) == Low64(8 * n)
  {
    var q := n / TWO64;
    assert 8 * n == n % TWO64 * 8 + (8 * q) * TWO64;
    Wraps(n % TWO64 * 8, 8 * q);
  }

  lemma OffsetReached(n: nat, k: nat, buflen: nat)
    requires k <= PadZeros(n) && buflen == (n + 1 + k) % BLOCK
    ensures buflen == 56 <==> k == PadZeros(n)
  {
  }

  lemma PaddedParts(msg: seq<byte>)
    ensures Padded(msg) == msg + [0x80] + Zeros(PadZeros(|msg|)) + BigEndian(Low64(8 * |msg|), 8)
  {
  }

  lemma WholeBlocks(fed: seq<byte>, buflen: nat)
    requires |fed| % BLOCK == 0 && buflen == |fed| % BLOCK
    ensures fed[..|fed| - buflen] == fed
  {
  }

  method FillSchedule(block: seq<byte>) returns (w: array<Word>)
    requires |block| == BLOCK
    ensures fresh(w) && w.Length == 64 && forall t :: 0 <= t < 64 ==> w[t] == Schedule(block, t)
  {
    hide WordAt, SmallSigma0, SmallSigma1, Plus, Schedule;
    w := new Word[64](_ => 0);
    for i := 0 to 16
      invariant forall t :: 0 <= t < i ==> w[t] == Schedule(block, t)
    {
      ScheduleHead(block, i);
      w[i] := WordAt(block, i);
    }
    for i := 16 to 64
      invariant forall t :: 0 <= t < i ==> w[t] == Schedule(block, t)
    {
      ScheduleTail(block, i);
      w[i] := Plus(Plus(Plus(w[i - 16], SmallSigma0(w[i - 15])), w[i - 7]), SmallSigma1(w[i - 2]));
    }
  }

  lemma ScheduleHead(block: seq<byte>, t: nat)
    requires |block| == BLOCK && t < 16
    ensures Schedule(block, t) == WordAt(block, t)
  {
  }

  lemma ScheduleTail(block: seq<byte>, t: nat)
    requires |block| == BLOCK && 16 <= t < 64
    ensures Schedule(block, t) ==
      Plus(Plus(Plus(Schedule(block, t - 16), SmallSigma0(Schedule(block, t - 15))), Schedule(block, t - 7)),
           SmallSigma1(Schedule(block, t - 2)))
  {
  }

  /** The 64 rounds, and the addition to the state they started from. */
  method AllRounds(s: State, w: array<Word>, ghost block: seq<byte>) returns (r: State)
    requires |block| == BLOCK && w.Length == 64 && forall t :: 0 <= t < 64 ==> w[t] == Schedule(block, t)
    ensures r == Compress(s, block)
  {
    hide Schedule, BigSigma0, BigSigma1, Ch, Maj, Plus;
    var a, b, c, d, e, f, g, h := s.a, s.b, s.c, s.d, s.e, s.f, s.g, s.h;
    for i := 0 to 64
      invariant State(a, b, c, d, e, f, g, h) == Rounds(s, block, i)
    {
      var t1 := Plus(Plus(Plus(Plus(h, BigSigma1(e)), Ch(e, f, g)), K[i]), w[i]);
      var t2 := Plus(BigSigma0(a), Maj(a, b, c));
      h := g;
      g := f;
      f := e;
      e := Plus(d, t1);
      d := c;
      c := b;
      b := a;
      a := Plus(t1, t2);
    }
    r := AddStates(s, State(a, b, c, d, e, f, g, h));
  }

  /** lenb[i] = bits >> (56 - 8 * i) */
  method LengthBytes(bits: nat) returns (lenb: seq<byte>)
    ensures lenb == BigEndian(bits, 8)
  {
    hide BigEndian, Shr;
    var a := new byte[8](_ => 0);
    for i := 0 to 8
      invariant a[..i] == BigEndian(bits, 8)[..i]
    {
      BigEndianAt(bits, 8, i);
      a[i] := Shr(bits, 56 - i * 8) % 256;
    }
    lenb := a[..];
  }

  method DigestOf(s: State) returns (out: seq<byte>)
    ensures out == Digest(s)
  {
    out := Digest(s);
  }

  /** However a message is cut into updates, the digest is that of the whole. */
  method HashChunks(chunks: seq<seq<byte>>) returns (out: seq<byte>)
    ensures out == Hash(Joined(chunks))
  {
    hide Hash;
    var c := new Context();
    assert chunks[..0] == [];
    var i := 0;
    while i < |chunks|
      invariant i <= |chunks| && c.Valid() && fresh(c) && fresh(c.buf) && c.fed == Joined(chunks[..i])
    {
      c.Update(chunks[i]);
      assert chunks[..i + 1][..i] == chunks[..i];
      i := i + 1;
    }
    assert chunks[..i] == chunks;
    out := c.Final();
  }
}
