/** Reassembly and deduplication: `next_message` and `recv` of harness/lora.py, and what they compute from
    any non-decreasing stream of fragments. */
module LoRaReceiver {
  import opened Prelude
  import opened LoRaFrame

  /** The parts received so far of one message, by fragment index. */
  type Parts = map<nat, Frame>

  /** `_rbuf[key]` of the link and `_seen` of the stream, and the messages handed to the application. */
  datatype Receiver = Receiver(rbuf: map<nat, Parts>, seen: set<nat>, returned: seq<(nat, seq<byte>)>)

  const FRESH := Receiver(map[], {}, [])

  ghost function MaxKey(s: set<nat>): (k: nat)
    requires s != {}
    ensures k in s && forall j :: j in s ==> j <= k
  {
    var x :| x in s;
    assert forall j :: j in s ==> j == x || j in s - {x};
    if s == {x} then x
    else
      var y := MaxKey(s - {x});
      if x <= y then y else x
  }

  /** max(x["total"] for x in parts.values()) */
  ghost function MaxTotal(parts: Parts): (t: nat)
    ensures forall k :: k in parts ==> parts[k].total <= t
    ensures parts != map[] ==> exists k :: k in parts && parts[k].total == t
  {
    if parts == map[] then 0
    else
      var k := MaxKey(parts.Keys);
      assert forall j :: j in parts ==> j == k || (j in parts - {k} && (parts - {k})[j] == parts[j]);
      Max(parts[k].total, MaxTotal(parts - {k}))
  }

  /** b"".join(parts[i]["payload"] for i in sorted(parts)) */
  ghost function Join(parts: Parts): seq<byte> {
    if parts == map[] then []
    else
      var k := MaxKey(parts.Keys);
      Join(parts - {k}) + parts[k].payload
  }

  /** The loop body of `next_message` for one pulled data frame: file it, and take the message out when its
      parts are all there. */
  ghost function FileFrame(rbuf: map<nat, Parts>, f: Frame): (map<nat, Parts>, Option<(nat, seq<byte>)>) {
    var parts := (if f.mid in rbuf then rbuf[f.mid] else map[])[f.idx := f];
    if |parts| != MaxTotal(parts) then (rbuf[f.mid := parts], None)
    else (rbuf - {f.mid}, Some((f.mid, Join(parts))))
  }

  /** `recv` on one pulled data frame: FileFrame, then the duplicate test. */
  ghost function Accept(r: Receiver, f: Frame): Receiver {
    var (rbuf, msg) := FileFrame(r.rbuf, f);
    if msg.None? || msg.value.0 in r.seen then r.(rbuf := rbuf)
    else Receiver(rbuf, r.seen + {msg.value.0}, r.returned + [msg.value])
  }

  ghost function Receive(p: seq<Frame>): Receiver {
    if p == [] then FRESH else Accept(Receive(p[..|p| - 1]), p[|p| - 1])
  }

  lemma ReceiveAppend(p: seq<Frame>, f: Frame)
    ensures Receive(p + [f]) == Accept(Receive(p), f)
  {
    assert (p + [f])[..|p|] == p;
  }

  // ---- what the stream of fragments looks like ----

  /** f is one of the fragments of one of the messages in `log`. */
  predicate IsFragment(f: Frame, log: seq<seq<byte>>, chunk: nat)
    requires chunk > 0
  {
    && f.kind.Data?
    && f.mid < |log|
    && var frags := Fragments(log[f.mid], chunk);
       Packable(frags) && f.idx < |frags| && f == DataFrame(f.side, f.mid, frags, f.idx)
  }

  predicate Before(f: Frame, g: Frame) {
    f.mid < g.mid || (f.mid == g.mid && f.idx <= g.idx)
  }

  ghost predicate NonDecreasing(p: seq<Frame>) {
    forall i, j :: 0 <= i < j < |p| ==> Before(p[i], p[j])
  }

  ghost predicate AreFragments(p: seq<Frame>, log: seq<seq<byte>>, chunk: nat)
    requires chunk > 0
  {
    forall k :: 0 <= k < |p| ==> IsFragment(p[k], log, chunk)
  }

  ghost predicate Has(p: seq<Frame>, mid: nat, idx: nat) {
    exists k :: 0 <= k < |p| && p[k].mid == mid && p[k].idx == idx
  }

  /** Every fragment of message `mid` is somewhere in p. */
  ghost predicate Complete(p: seq<Frame>, mid: nat, log: seq<seq<byte>>, chunk: nat)
    requires chunk > 0
  {
    && mid < |log|
    && log[mid] != []
    && Packable(Fragments(log[mid], chunk))
    && forall i: nat :: i < |Fragments(log[mid], chunk)| ==> Has(p, mid, i)
  }

  // ---- the parts of one message ----

  /** `parts` holds exactly the fragments of message `mid` that p has, when p has any. */
  ghost predicate PartsOf(parts: Parts, p: seq<Frame>, mid: nat, log: seq<seq<byte>>, chunk: nat)
    requires chunk > 0
  {
    && (forall i :: i in parts <==> Has(p, mid, i))
    && (forall i :: i in parts ==> parts[i].mid == mid && parts[i].idx == i && IsFragment(parts[i], log, chunk))
  }

  lemma {:induction false} CountBelow(s: set<nat>, n: nat)
    requires forall i :: i in s ==> i < n
    ensures |s| <= n
    ensures |s| == n <==> forall i: nat :: i < n ==> i in s
  {
    if n == 0 {
      assert s == {};
    } else {
      var t := s - {n - 1};
      CountBelow(t, n - 1);
      if n - 1 in s {
        assert s == t + {n - 1};
        if |s| == n {
          forall i: nat | i < n ensures i in s { if i < n - 1 { assert i in t; } }
        }
      } else {
        assert s == t;
      }
    }
  }

  lemma {:induction false} JoinIsConcat(parts: Parts, frags: seq<seq<byte>>)
    requires forall i :: i in parts <==> 0 <= i < |frags|
    requires forall i :: i in parts ==> parts[i].payload == frags[i]
    ensures Join(parts) == Concat(frags)
  {
    if frags == [] {
      assert parts == map[];
    } else {
      var n := |frags| - 1;
      assert n in parts && MaxKey(parts.Keys) == n;
      JoinIsConcat(parts - {n}, frags[..n]);
      ConcatSnoc(frags[..n], frags[n]);
      assert frags == frags[..n] + [frags[n]];
    }
  }

  lemma {:induction false} ConcatSnoc(a: seq<seq<byte>>, x: seq<byte>)
    ensures Concat(a + [x]) == Concat(a) + x
  {
    if a == [] {
      assert [x][1..] == [];
    } else {
      ConcatSnoc(a[1..], x);
      assert (a + [x])[1..] == a[1..] + [x];
    }
  }

  /** The completeness test `len(parts) == total`, and what the join then yields. */
  lemma CompletionTest(parts: Parts, mid: nat, frags: seq<seq<byte>>)
    requires parts != map[] && Packable(frags)
    requires forall i :: i in parts ==> i < |frags| && parts[i] == DataFrame(parts[i].side, mid, frags, i)
    ensures |parts| == MaxTotal(parts) <==> forall i: nat :: i < |frags| ==> i in parts
    ensures |parts| == MaxTotal(parts) ==> Join(parts) == Concat(frags)
  {
    var k :| k in parts && parts[k].total == MaxTotal(parts);
    CountBelow(parts.Keys, |frags|);
    if forall i: nat :: i < |frags| ==> i in parts {
      JoinIsConcat(parts, frags);
    }
  }

  // ---- the invariant over the stream ----

  /** What the receiver knows of message m after the stream p. */
  ghost predicate MessageInv(r: Receiver, p: seq<Frame>, m: nat, log: seq<seq<byte>>, chunk: nat)
    requires chunk > 0
  {
    && (m in r.seen <==> Complete(p, m, log, chunk))
    && if Complete(p, m, log, chunk) then
         m in r.rbuf ==>
           && |Fragments(log[m], chunk)| > 1
           && r.rbuf[m].Keys == {|Fragments(log[m], chunk)| - 1}
       else
         PartsOf(if m in r.rbuf then r.rbuf[m] else map[], p, m, log, chunk)
  }

  /** The messages returned are whole messages of the log, in strictly increasing order of message id. */
  ghost predicate InOrder(returned: seq<(nat, seq<byte>)>, log: seq<seq<byte>>) {
    && (forall k :: 0 <= k < |returned| ==> returned[k].0 < |log| && returned[k].1 == log[returned[k].0])
    && (forall j, k :: 0 <= j < k < |returned| ==> returned[j].0 < returned[k].0)
  }

  ghost predicate Returned(returned: seq<(nat, seq<byte>)>, mid: nat) {
    exists k :: 0 <= k < |returned| && returned[k].0 == mid
  }

  ghost predicate ReceiverInv(r: Receiver, p: seq<Frame>, log: seq<seq<byte>>, chunk: nat)
    requires chunk > 0
  {
    && (forall m: nat :: MessageInv(r, p, m, log, chunk))
    && (forall m: nat :: Returned(r.returned, m) <==> m in r.seen)
    && InOrder(r.returned, log)
  }

  lemma HasSnoc(p: seq<Frame>, f: Frame, mid: nat, idx: nat)
    ensures Has(p + [f], mid, idx) <==> Has(p, mid, idx) || (f.mid == mid && f.idx == idx)
  {
    var q := p + [f];
    if Has(p, mid, idx) {
      var k :| 0 <= k < |p| && p[k].mid == mid && p[k].idx == idx;
      assert q[k] == p[k];
    }
    if f.mid == mid && f.idx == idx {
      assert q[|p|] == f;
    }
  }

  lemma AcceptFrame(r: Receiver, f: Frame, m: nat)
    requires m != f.mid
    ensures m in Accept(r, f).seen <==> m in r.seen
    ensures m in Accept(r, f).rbuf <==> m in r.rbuf
    ensures m in r.rbuf ==> Accept(r, f).rbuf[m] == r.rbuf[m]
  {
  }

  /** Accepting f changes nothing about the other messages. */
  lemma OtherMessages(r: Receiver, r': Receiver, p: seq<Frame>, f: Frame, m: nat, log: seq<seq<byte>>, chunk: nat)
    requires chunk > 0 && m != f.mid
    requires MessageInv(r, p, m, log, chunk)
    requires m in r'.seen <==> m in r.seen
    requires m in r'.rbuf <==> m in r.rbuf
    requires m in r.rbuf ==> r'.rbuf[m] == r.rbuf[m]
    ensures MessageInv(r', p + [f], m, log, chunk)
  {
    forall i: nat ensures Has(p + [f], m, i) <==> Has(p, m, i) {
      HasSnoc(p, f, m, i);
    }
    assert Complete(p + [f], m, log, chunk) <==> Complete(p, m, log, chunk);
  }

  /** A frame of a message that was complete before it arrived repeats the last fragment. */
  lemma AfterCompletion(p: seq<Frame>, f: Frame, log: seq<seq<byte>>, chunk: nat)
    requires chunk > 0 && NonDecreasing(p + [f]) && IsFragment(f, log, chunk)
    requires Complete(p, f.mid, log, chunk)
    ensures f.idx == |Fragments(log[f.mid], chunk)| - 1
  {
    var last := |Fragments(log[f.mid], chunk)| - 1;
    assert Has(p, f.mid, last);
    var k :| 0 <= k < |p| && p[k].mid == f.mid && p[k].idx == last;
    assert Before((p + [f])[k], (p + [f])[|p|]);
  }

  /** The parts under which f is filed, when its message was not complete yet. */
  lemma FiledParts(parts: Parts, p: seq<Frame>, f: Frame, log: seq<seq<byte>>, chunk: nat)
    requires chunk > 0 && IsFragment(f, log, chunk)
    requires PartsOf(parts, p, f.mid, log, chunk)
    ensures PartsOf(parts[f.idx := f], p + [f], f.mid, log, chunk)
  {
    forall i: nat ensures i in parts[f.idx := f] <==> Has(p + [f], f.mid, i) {
      HasSnoc(p, f, f.mid, i);
    }
  }

  lemma PartsComplete(parts: Parts, p: seq<Frame>, mid: nat, log: seq<seq<byte>>, chunk: nat)
    requires chunk > 0 && parts != map[] && PartsOf(parts, p, mid, log, chunk)
    ensures |parts| == MaxTotal(parts) <==> Complete(p, mid, log, chunk)
    ensures |parts| == MaxTotal(parts) ==> Join(parts) == log[mid]
  {
    var k :| k in parts;
    assert IsFragment(parts[k], log, chunk);
    CompletionTest(parts, mid, Fragments(log[mid], chunk));
    ConcatFragments(log[mid], chunk);
  }

  /** The message f belongs to, when it was not complete before f. */
  lemma AcceptNewMessage(r: Receiver, p: seq<Frame>, f: Frame, log: seq<seq<byte>>, chunk: nat)
    requires chunk > 0 && IsFragment(f, log, chunk)
    requires MessageInv(r, p, f.mid, log, chunk) && !Complete(p, f.mid, log, chunk)
    ensures MessageInv(Accept(r, f), p + [f], f.mid, log, chunk)
    ensures Accept(r, f).returned ==
            if Complete(p + [f], f.mid, log, chunk) then r.returned + [(f.mid, log[f.mid])] else r.returned
  {
    var before := if f.mid in r.rbuf then r.rbuf[f.mid] else map[];
    FiledParts(before, p, f, log, chunk);
    assert f.idx in before[f.idx := f];
    PartsComplete(before[f.idx := f], p + [f], f.mid, log, chunk);
  }

  /** The message f belongs to, when it was complete before f: nothing is returned again. */
  lemma AcceptRepeat(r: Receiver, p: seq<Frame>, f: Frame, log: seq<seq<byte>>, chunk: nat)
    requires chunk > 0 && NonDecreasing(p + [f]) && IsFragment(f, log, chunk)
    requires MessageInv(r, p, f.mid, log, chunk) && Complete(p, f.mid, log, chunk)
    ensures MessageInv(Accept(r, f), p + [f], f.mid, log, chunk)
    ensures Complete(p + [f], f.mid, log, chunk) && Accept(r, f).returned == r.returned
  {
    AfterCompletion(p, f, log, chunk);
    forall i: nat ensures Has(p, f.mid, i) ==> Has(p + [f], f.mid, i) { HasSnoc(p, f, f.mid, i); }
    var frags := Fragments(log[f.mid], chunk);
    var parts := (if f.mid in r.rbuf then r.rbuf[f.mid] else map[])[f.idx := f];
    assert parts.Keys == {f.idx} && parts[f.idx] == f;
    assert MaxTotal(parts) == |frags|;
    assert |parts.Keys| == 1;
  }

  lemma ReturnedSnoc(returned: seq<(nat, seq<byte>)>, x: (nat, seq<byte>), m: nat)
    ensures Returned(returned + [x], m) <==> Returned(returned, m) || x.0 == m
  {
    var q := returned + [x];
    if Returned(returned, m) {
      var k :| 0 <= k < |returned| && returned[k].0 == m;
      assert q[k].0 == m;
    }
    if x.0 == m { assert q[|returned|].0 == m; }
  }

  /** Whatever was returned before f is older than the message f completes. */
  lemma ReturnedIdsBelow(r: Receiver, p: seq<Frame>, f: Frame, log: seq<seq<byte>>, chunk: nat)
    requires chunk > 0 && NonDecreasing(p + [f])
    requires ReceiverInv(r, p, log, chunk) && f.mid !in r.seen
    ensures forall k :: 0 <= k < |r.returned| ==> r.returned[k].0 < f.mid
  {
    forall k | 0 <= k < |r.returned| ensures r.returned[k].0 < f.mid {
      var m := r.returned[k].0;
      assert Returned(r.returned, m) && MessageInv(r, p, m, log, chunk);
      assert Has(p, m, 0);
      var j :| 0 <= j < |p| && p[j].mid == m && p[j].idx == 0;
      assert Before((p + [f])[j], (p + [f])[|p|]);
    }
  }

  /** Every message keeps its invariant, and f returns its own message or nothing. */
  lemma AcceptMessages(r: Receiver, p: seq<Frame>, f: Frame, log: seq<seq<byte>>, chunk: nat)
    requires chunk > 0 && NonDecreasing(p + [f]) && IsFragment(f, log, chunk)
    requires ReceiverInv(r, p, log, chunk)
    ensures forall m: nat :: MessageInv(Accept(r, f), p + [f], m, log, chunk)
    ensures || (Accept(r, f).returned == r.returned && Accept(r, f).seen == r.seen)
            || (f.mid !in r.seen && Accept(r, f).seen == r.seen + {f.mid} &&
                Accept(r, f).returned == r.returned + [(f.mid, log[f.mid])])
  {
    assert MessageInv(r, p, f.mid, log, chunk);
    if Complete(p, f.mid, log, chunk) {
      AcceptRepeat(r, p, f, log, chunk);
    } else {
      AcceptNewMessage(r, p, f, log, chunk);
    }
    forall m: nat ensures MessageInv(Accept(r, f), p + [f], m, log, chunk) {
      assert MessageInv(r, p, m, log, chunk);
      if m != f.mid {
        AcceptFrame(r, f, m);
        OtherMessages(r, Accept(r, f), p, f, m, log, chunk);
      }
    }
  }

  lemma ReturnedMatchesSeen(returned: seq<(nat, seq<byte>)>, seen: set<nat>, x: (nat, seq<byte>))
    requires forall m: nat :: Returned(returned, m) <==> m in seen
    ensures forall m: nat :: Returned(returned + [x], m) <==> m in seen + {x.0}
  {
    forall m: nat ensures Returned(returned + [x], m) <==> m in seen + {x.0} {
      ReturnedSnoc(returned, x, m);
      assert Returned(returned, m) <==> m in seen;
    }
  }

  lemma InOrderSnoc(returned: seq<(nat, seq<byte>)>, log: seq<seq<byte>>, mid: nat)
    requires InOrder(returned, log) && mid < |log|
    requires forall k :: 0 <= k < |returned| ==> returned[k].0 < mid
    ensures InOrder(returned + [(mid, log[mid])], log)
  {
  }

  lemma AcceptCorrect(r: Receiver, p: seq<Frame>, f: Frame, log: seq<seq<byte>>, chunk: nat)
    requires chunk > 0 && NonDecreasing(p + [f]) && IsFragment(f, log, chunk)
    requires ReceiverInv(r, p, log, chunk)
    ensures ReceiverInv(Accept(r, f), p + [f], log, chunk)
  {
    AcceptMessages(r, p, f, log, chunk);
    if f.mid !in r.seen {
      ReturnedIdsBelow(r, p, f, log, chunk);
      ReturnedMatchesSeen(r.returned, r.seen, (f.mid, log[f.mid]));
      InOrderSnoc(r.returned, log, f.mid);
    }
  }

  /** For every non-decreasing stream of fragments, `recv` returns exactly the messages of which every
      fragment arrived, each whole, each once, in order. */
  lemma {:induction false} ReceiveCorrect(p: seq<Frame>, log: seq<seq<byte>>, chunk: nat)
    requires chunk > 0 && NonDecreasing(p) && AreFragments(p, log, chunk)
    ensures ReceiverInv(Receive(p), p, log, chunk)
  {
    if p == [] {
      forall m: nat ensures !Complete(p, m, log, chunk) {
        assert Complete(p, m, log, chunk) ==> Has(p, m, 0);
      }
    } else {
      var q, f := p[..|p| - 1], p[|p| - 1];
      assert p == q + [f];
      forall i, j | 0 <= i < j < |q| ensures Before(q[i], q[j]) { assert Before(p[i], p[j]); }
      ReceiveCorrect(q, log, chunk);
      AcceptCorrect(Receive(q), q, f, log, chunk);
    }
  }
}
