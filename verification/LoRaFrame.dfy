/** The radio frame of harness/lora.py: an 8-byte header and a payload, and the cutting of a message into payloads. */
module LoRaFrame {
  import opened Prelude

  datatype Side = A | B {
    function Other(): Side {
      if A? then B else A
    }

    /** The side byte of the header; `endpoint` numbers "A" 0 and everything else 1. */
    function Code(): int {
      if A? then 0 else 1
    }
  }

  datatype Kind = Data | Ack {
    function Code(): int {
      if Data? then 0 else 1
    }
  }

  datatype Frame = Frame(side: Side, kind: Kind, mid: nat, idx: nat, total: nat, payload: seq<byte>)

  datatype PackError = ValueError | OverflowError

  // ---- big-endian numbers, as int.to_bytes and int.from_bytes ----

  function ToBytes2(n: nat): Result<seq<byte>, PackError> {
    if n < 0x1_0000 then Ok([n / 256, n % 256]) else Err(OverflowError)
  }

  function FromBytes(s: seq<byte>): nat {
    if s == [] then 0 else FromBytes(s[..|s| - 1]) * 256 + s[|s| - 1]
  }

  /** Python's s[lo:hi], which never raises. */
  function Slice(s: seq<byte>, lo: nat, hi: nat): seq<byte>
    requires lo <= hi
  {
    s[Min(lo, |s|)..Min(hi, |s|)]
  }

  const HDR: nat := 8

  function Pack(f: Frame): Result<seq<byte>, PackError> {
    match ToBytes2(f.mid)
    case Err(e) => Err(e)
    case Ok(mid) =>
      if f.idx >= 256 || f.total >= 256 then Err(ValueError)
      else
        match ToBytes2(|f.payload|)
        case Err(e) => Err(e)
        case Ok(plen) => Ok([f.side.Code(), f.kind.Code()] + mid + [f.idx, f.total] + plen + f.payload)
  }

  /** The dict `_unpack` builds. The side and kind bytes stay numbers there; the radio loop reads side 0 as
      A and anything else as B, and tests the kind against the two constants. `None` is the IndexError
      of a frame too short to have a header, or a kind byte that neither test would match. */
  function Unpack(s: seq<byte>): Option<Frame> {
    if |s| < 6 || s[1] >= 2 then None
    else Some(Frame(if s[0] == 0 then A else B,
                    if s[1] == 0 then Data else Ack,
                    FromBytes(Slice(s, 2, 4)), s[4], s[5],
                    s[Min(HDR, |s|)..]))
  }

  /** The numbers that the header has room for. */
  predicate Fits(f: Frame) {
    f.mid < 0x1_0000 && f.idx < 256 && f.total < 256 && |f.payload| < 0x1_0000
  }

  /** `_pack` accepts exactly the frames that fit, and what goes on the air then comes off it unchanged. */
  lemma UnpackPack(f: Frame)
    ensures Pack(f).Ok? <==> Fits(f)
    ensures Fits(f) ==> Unpack(Pack(f).value) == Some(f)
  {
    if Fits(f) { UnpackFitting(f); }
  }

  lemma TwoBytes(a: byte, b: byte)
    ensures FromBytes([a, b]) == a as nat * 256 + b
  {
    assert [a, b][..1] == [a] && [a][..0] == [];
    assert FromBytes([a]) == a;
  }

  lemma UnpackFitting(f: Frame)
    requires Fits(f)
    ensures Pack(f).Ok? && Unpack(Pack(f).value) == Some(f)
  {
    var s := Pack(f).value;
    assert s[8..] == f.payload;
    assert Slice(s, 2, 4) == [f.mid / 256, f.mid % 256];
    TwoBytes(f.mid / 256, f.mid % 256);
  }

  /** The bytes of a frame: side, kind, two bytes of message id, index, total, two bytes of length, and the payload. */
  lemma PackLayout(f: Frame)
    requires Fits(f)
    ensures Pack(f).Ok?
    ensures var s := Pack(f).value;
      && |s| == 8 + |f.payload| && s[8..] == f.payload
      && s[0] == (if f.side == A then 0 else 1) && s[1] == (if f.kind == Data then 0 else 1)
      && s[2] as nat * 256 + s[3] == f.mid && s[4] == f.idx && s[5] == f.total
      && s[6] as nat * 256 + s[7] == |f.payload|
  {
  }

  /** What is read of a frame with a whole header. */
  lemma UnpackLayout(s: seq<byte>)
    requires |s| >= 8
    ensures Unpack(s).Some? <==> s[1] <= 1
    ensures Unpack(s).Some? ==>
      Unpack(s).value == Frame(if s[0] == 0 then A else B, if s[1] == 0 then Data else Ack,
                               s[2] as nat * 256 + s[3], s[4], s[5], s[8..])
  {
    assert Slice(s, 2, 4) == [s[2], s[3]];
    TwoBytes(s[2], s[3]);
    hide FromBytes;
  }

  // ---- fragmentation ----

  /** The payloads `sendall` cuts a message into: `chunk` bytes each, the last one possibly shorter. */
  function Fragments(data: seq<byte>, chunk: nat): (r: seq<seq<byte>>)
    requires chunk > 0
    ensures data == [] <==> r == []
  {
    if data == [] then []
    else if |data| <= chunk then [data]
    else [data[..chunk]] + Fragments(data[chunk..], chunk)
  }

  function Concat(parts: seq<seq<byte>>): seq<byte> {
    if parts == [] then [] else parts[0] + Concat(parts[1..])
  }

  lemma {:induction false} ConcatFragments(data: seq<byte>, chunk: nat)
    requires chunk > 0
    ensures Concat(Fragments(data, chunk)) == data
  {
    if |data| > chunk {
      ConcatFragments(data[chunk..], chunk);
      assert Fragments(data, chunk)[1..] == Fragments(data[chunk..], chunk);
      assert data[..chunk] + data[chunk..] == data;
    } else if data != [] {
      assert Fragments(data, chunk)[1..] == [];
      assert data + [] == data;
    }
  }

  /** Every fragment is non-empty and no longer than the first one, and only the last one may be short. */
  lemma {:induction false} FragmentLengths(data: seq<byte>, chunk: nat, i: nat)
    requires chunk > 0 && i < |Fragments(data, chunk)|
    ensures 0 < |Fragments(data, chunk)[i]| <= |Fragments(data, chunk)[0]| <= chunk
    ensures i + 1 < |Fragments(data, chunk)| ==> |Fragments(data, chunk)[i]| == chunk
  {
    if |data| > chunk && i > 0 {
      FragmentLengths(data[chunk..], chunk, i - 1);
    }
  }

  /** `_pack` numbers a fragment with one byte and its length with two. */
  predicate Packable(frags: seq<seq<byte>>) {
    |frags| < 256 && (|frags| > 0 ==> |frags[0]| < 0x1_0000)
  }

  function DataFrame(side: Side, mid: nat, frags: seq<seq<byte>>, idx: nat): Frame
    requires idx < |frags|
  {
    Frame(side, Data, mid, idx, |frags|, frags[idx])
  }

  function AckFrame(f: Frame): Frame {
    Frame(f.side.Other(), Ack, f.mid, f.idx, 0, [])
  }

  /** A message either packs whole or fails on its very first fragment, before anything is queued. */
  lemma PackAllOrNothing(side: Side, mid: nat, data: seq<byte>, chunk: nat, idx: nat)
    requires chunk > 0 && mid < 0x1_0000
    requires idx < |Fragments(data, chunk)|
    ensures Packable(Fragments(data, chunk)) ==> Pack(DataFrame(side, mid, Fragments(data, chunk), idx)).Ok?
    ensures !Packable(Fragments(data, chunk)) ==> Pack(DataFrame(side, mid, Fragments(data, chunk), 0)).Err?
  {
    FragmentLengths(data, chunk, idx);
  }

  /** No frame of a message is longer than the link carries, and all but the last use that up. */
  lemma FrameLengths(side: Side, mid: nat, data: seq<byte>, cap: nat, idx: nat)
    requires cap > 8 && mid < 0x1_0000 && Packable(Fragments(data, cap - 8)) && idx < |Fragments(data, cap - 8)|
    ensures var p := Pack(DataFrame(side, mid, Fragments(data, cap - 8), idx));
      p.Ok? && |p.value| <= cap && (idx + 1 < |Fragments(data, cap - 8)| ==> |p.value| == cap)
  {
    var f := DataFrame(side, mid, Fragments(data, cap - 8), idx);
    PackAllOrNothing(side, mid, data, cap - 8, idx);
    FragmentLengths(data, cap - 8, idx);
    UnpackPack(f);
    PackLayout(f);
    hide Fragments, Pack;
  }
}
