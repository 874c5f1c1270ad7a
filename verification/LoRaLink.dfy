/** The two classes of harness/lora.py. Every method is one region that runs without giving up the lock (or touches
    only its own thread's state), and does exactly the step of LoRaProtocol it is named after. */
module LoRaLink {
  import opened Prelude
  import opened LoRaFrame
  import opened LoRaReceiver
  import opened LoRaProtocol

  class RadioLink {
    const frameCap: nat
    var tx: Duo<seq<Frame>>
    var rx: Duo<seq<Frame>>
    var rbuf: Duo<map<nat, Parts>>
    // the radio thread's own variables
    var radio: Radio
    var turn: Side

    ghost function View(): Link
      reads this
    {
      Link(tx, rx, radio, turn)
    }

    function Chunk(): nat
      requires frameCap >= 32
    {
      frameCap - HDR
    }

    constructor (cap: int)
      ensures frameCap == Max(32, cap) && View() == INIT.link && rbuf == Duo(map[], map[])
    {
      frameCap := Max(32, cap);
      tx, rx, rbuf := Duo([], []), Duo([], []), Duo(map[], map[]);
      radio, turn := Listening, A;
    }

    /** The first locked region of a turn of the radio loop. */
    method PopFrame()
      requires radio.Listening?
      modifies this`tx, this`radio, this`turn
      ensures View() == Pop(old(View()))
      ensures turn == old(turn).Other() && tx.Get(turn) == old(tx).Get(turn)
      ensures old(tx).Get(old(turn)) == [] ==> radio.Listening? && tx == old(tx)
      ensures old(tx).Get(old(turn)) != [] ==>
        radio.InAir? && [radio.frame] + tx.Get(old(turn)) == old(tx).Get(old(turn))
    {
      var q := tx.Get(turn);
      if q != [] {
        tx := tx.Set(turn, q[1..]);
        radio := InAir(q[0]);
      }
      turn := turn.Other();
    }

    /** The rest of the turn up to the queueing of the ack; `lost` is the random draw. */
    method Carry(lost: bool)
      requires radio.InAir?
      modifies this`rx, this`radio
      ensures View() == if lost then Drop(old(View())) else Deliver(old(View()))
    {
      var frame := radio.frame;
      if lost {
        radio := Listening;
        return;
      }
      var target := if frame.side == A then B else A;
      rx := rx.Set(target, rx.Get(target) + [frame]);
      radio := if frame.kind.Data? then OweAck(frame) else Listening;
    }

    method QueueAckFrame()
      requires radio.OweAck? && radio.frame.mid < ID_SPACE && radio.frame.idx < 256
      modifies this`tx, this`radio
      ensures View() == QueueAck(old(View()))
    {
      var f := radio.frame;
      UnpackPack(AckFrame(f));
      var ack := Unpack(Pack(AckFrame(f)).value).value;
      var target := f.side.Other();
      tx := tx.Set(target, tx.Get(target) + [ack]);
      radio := Listening;
    }

    method Send(side: Side, bytes: seq<byte>)
      requires Unpack(bytes).Some?
      modifies this`tx
      ensures View() == SendFrame(old(View()), side, Unpack(bytes).value)
    {
      tx := tx.Set(side, tx.Get(side) + [Unpack(bytes).value]);
    }

    method PullFrame(side: Side, kind: Kind) returns (f: Option<Frame>)
      modifies this`rx
      ensures (f, View()) == Pull(old(View()), side, kind)
    {
      var q := rx.Get(side);
      for i := 0 to |q|
        invariant rx == old(rx)
        invariant forall j :: 0 <= j < i ==> q[j].kind != kind
      {
        if q[i].kind == kind {
          rx := rx.Set(side, q[..i] + q[i + 1..]);
          return Some(q[i]);
        }
      }
      return None;
    }

    /** One turn of the polling loop of `next_message`. `got` is the frame it took off the queue, if any. */
    method NextMessageTurn(side: Side) returns (ghost got: Option<Frame>, msg: Option<(nat, seq<byte>)>)
      modifies this`rx, this`rbuf
      ensures (got, View()) == Pull(old(View()), side, Data)
      ensures got.None? ==> rbuf == old(rbuf) && msg.None?
      ensures got.Some? ==>
                && rbuf == old(rbuf).Set(side, FileFrame(old(rbuf).Get(side), got.value).0)
                && msg == FileFrame(old(rbuf).Get(side), got.value).1
    {
      var pulled := PullFrame(side, Data);
      got := pulled;
      if pulled.None? {
        return pulled, None;
      }
      hide FileFrame, Pull;
      var buf, m := File(rbuf.Get(side), pulled.value);
      rbuf := rbuf.Set(side, buf);
      msg := m;
    }
  }

  /** The part of the turn that works on the dicts: the frame among the parts of its message, and the message out
      when they are all there. */
  method File(buf: map<nat, Parts>, f: Frame) returns (buf': map<nat, Parts>, msg: Option<(nat, seq<byte>)>)
    ensures (buf', msg) == FileFrame(buf, f)
  {
    var parts: Parts := (if f.mid in buf then buf[f.mid] else map[])[f.idx := f];
    var total := GreatestTotal(parts);
    buf', msg := buf[f.mid := parts], None;
    if |parts| == total {
      buf' := buf' - {f.mid};
      assert buf' == buf - {f.mid};
      var data := JoinSorted(parts);
      msg := Some((f.mid, data));
    }
  }

  method GreatestTotal(parts: Parts) returns (t: nat)
    ensures t == MaxTotal(parts)
  {
    t := 0;
    var keys := parts.Keys;
    while keys != {}
      invariant keys <= parts.Keys
      invariant forall k :: k in parts && k !in keys ==> parts[k].total <= t
      invariant (keys == parts.Keys && t == 0) || exists k :: k in parts && parts[k].total == t
      decreases keys
    {
      var k :| k in keys;
      t := Max(t, parts[k].total);
      keys := keys - {k};
    }
  }

  method LeastKey(s: set<nat>) returns (k: nat)
    requires s != {}
    ensures k in s && forall j :: j in s ==> k <= j
  {
    k :| k in s;
    var rest := s - {k};
    while rest != {}
      invariant k in s && rest <= s
      invariant forall j :: j in s && j !in rest ==> k <= j
      decreases rest
    {
      var j :| j in rest;
      if j < k { k := j; }
      rest := rest - {j};
    }
  }

  method JoinSorted(parts: Parts) returns (data: seq<byte>)
    ensures data == Join(parts)
  {
    data := [];
    var rest := parts.Keys;
    ghost var joined: Parts := parts - rest;
    while rest != {}
      invariant rest <= parts.Keys && joined == parts - rest
      invariant forall i, j :: i in joined && j in rest ==> i < j
      invariant data == Join(joined)
      decreases rest
    {
      var k := LeastKey(rest);
      ghost var more: Parts := parts - (rest - {k});
      assert forall j :: j in more ==> j == k || j in joined;
      assert k in more.Keys && forall j :: j in more.Keys ==> j <= k;
      assert MaxKey(more.Keys) == k;
      assert more - {k} == joined;
      data := data + parts[k].payload;
      rest := rest - {k};
      joined := more;
    }
    assert joined == parts;
  }

  ghost predicate AllPack(side: Side, mid: nat, frags: seq<seq<byte>>) {
    forall i: nat :: i < |frags| ==> Pack(DataFrame(side, mid, frags, i)).Ok?
  }

  ghost predicate FrameFits(cap: nat, side: Side, mid: nat, frags: seq<seq<byte>>, i: nat)
    requires i < |frags|
  {
    var p := Pack(DataFrame(side, mid, frags, i));
    p.Ok? && |p.value| <= cap && (i + 1 < |frags| ==> |p.value| == cap)
  }

  /** No frame is longer than the link carries, and all but the last are as long as that. */
  ghost predicate FramesFit(cap: nat, side: Side, mid: nat, frags: seq<seq<byte>>) {
    forall i: nat :: i < |frags| ==> FrameFits(cap, side, mid, frags, i)
  }

  lemma AllFit(cap: nat, side: Side, mid: nat, data: seq<byte>)
    requires cap > 8 && mid < ID_SPACE && Packable(Fragments(data, cap - 8))
    ensures FramesFit(cap, side, mid, Fragments(data, cap - 8))
  {
    hide Fragments, Pack, Packable;
    var frags := Fragments(data, cap - 8);
    forall i: nat | i < |frags|
      ensures FrameFits(cap, side, mid, frags, i)
    {
      FrameLengths(side, mid, data, cap, i);
    }
  }

  lemma AllPacked(side: Side, mid: nat, data: seq<byte>, chunk: nat)
    requires mid < ID_SPACE && chunk > 0 && data != []
    ensures var frags := Fragments(data, chunk);
      && frags != [] && (Packable(frags) <==> Pack(DataFrame(side, mid, frags, 0)).Ok?)
      && (Packable(frags) ==> AllPack(side, mid, frags))
  {
    hide Pack, DataFrame;
    var frags := Fragments(data, chunk);
    forall i: nat | i < |frags|
      ensures Packable(frags) ==> Pack(DataFrame(side, mid, frags, i)).Ok?
    {
      PackAllOrNothing(side, mid, data, chunk, i);
    }
    PackAllOrNothing(side, mid, data, chunk, 0);
  }

  datatype Outcome = Going | Returned(sent: nat) | Raised

  datatype Reading = Polling | Ended(data: seq<byte>) | TimedOut

  class LoRaStream {
    const link: RadioLink
    const side: Side
    var nextId: nat
    var acked: map<nat, set<nat>>
    var seen: set<nat>
    var closed: bool
    // the reader is inside the loop of recv
    var receiving: bool
    // the local variables of a running sendall
    var sender: Sender
    var size: nat
    // the threads between the tests of sendall and its lock
    ghost var calling: multiset<seq<byte>>
    // history
    ghost var returned: seq<(nat, seq<byte>)>
    ghost var log: seq<seq<byte>>
    ghost var done: set<int>
    ghost var pulled: seq<Frame>

    ghost function View(): Stream
      reads this, link
    {
      Stream(nextId, acked, calling, sender, closed, Receiver(link.rbuf.Get(side), seen, returned), receiving,
             log, done, pulled)
    }

    /** The fragment being sent can be packed; BeginSendall establishes it and the retry loop keeps it. */
    ghost predicate Valid()
      reads this
    {
      && nextId < ID_SPACE && [] !in calling
      && (sender.Sending? ==>
            && sender.mid < ID_SPACE && sender.mid in acked && sender.idx < |sender.frags|
            && AllPack(side, sender.mid, sender.frags))
    }

    constructor (link: RadioLink, side: Side)
      requires link.rbuf.Get(side) == map[]
      ensures this.link == link && this.side == side && Valid() && View() == NEW_STREAM
    {
      this.link, this.side := link, side;
      nextId, acked, seen, closed, receiving, sender, size := 0, map[], {}, false, false, Idle, 0;
      calling, returned, log, done, pulled := multiset{}, [], [], {}, [];
    }

    /** `sendall` up to its lock. */
    method EnterSendall(data: seq<byte>) returns (r: Outcome)
      requires Valid()
      modifies this`calling
      ensures Valid() && View() == EnterSend(old(View()), data)
      ensures r == if closed then Raised else if data == [] then Returned(0) else Going
    {
      if closed {
        return Raised;
      }
      if data == [] {
        return Returned(0);
      }
      calling := calling + multiset{data};
      r := Going;
    }

    /** `sendall` from its lock, which the thread has just got, to the head of its first retry loop. */
    method BeginSendall(data: seq<byte>) returns (r: Outcome)
      requires Valid() && data in calling && sender.Idle? && link.frameCap >= 32
      modifies this`calling, this`nextId, this`acked, this`sender, this`size, this`log
      ensures Valid() && View() == BeginSend(old(View()), data, link.Chunk())
      ensures r == if Packable(Fragments(data, link.Chunk())) then Going else Raised
      ensures r == Going ==> sender.Sending? && FramesFit(link.frameCap, side, sender.mid, sender.frags)
    {
      hide Pack, DataFrame, Fragments, Packable, AllPack, FramesFit, Left;
      LeftOthers(calling, data, []);
      AllPacked(side, nextId, data, link.Chunk());
      var payloads := Fragments(data, link.Chunk());
      var mid, next := nextId, (nextId + 1) % ID_SPACE;
      calling, log, nextId, acked := Left(calling, data), log + [data], next, acked[mid := {}];
      var first := Pack(DataFrame(side, mid, payloads, 0));
      r := Raised;
      if first.Ok? {
        sender, size := Sending(mid, payloads, 0, 0, false), |data|;
        AllFit(link.frameCap, side, mid, data);
        r := Going;
      }
    }

    /** A turn of the retry loop up to the wait for an ack. */
    method TryOnce() returns (r: Outcome)
      requires Valid() && CanTransmit(View())
      modifies link`tx, this`sender
      ensures Valid() && View() == AfterTransmit(old(View()))
      ensures link.View() == SendFrame(old(link.View()), side,
                                       DataFrame(side, old(sender).mid, old(sender).frags, old(sender).idx))
      ensures r == if old(sender).tries < MAX_TRIES then Going else Raised
    {
      var f := DataFrame(side, sender.mid, sender.frags, sender.idx);
      UnpackPack(f);
      link.Send(side, Pack(f).value);
      if sender.tries + 1 > MAX_TRIES {
        sender := Idle;
        return Raised;
      }
      sender := sender.(tries := sender.tries + 1, waiting := true);
      return Going;
    }

    /** The end of the wait: the frame pulled from the ack queue, or None for the timeout. */
    method NoteAck(ack: Option<Frame>)
      requires Valid() && sender.Sending? && sender.waiting
      modifies this`acked, this`sender
      ensures Valid() && View() == TakeAck(old(View()), ack)
    {
      if ack.Some? && ack.value.mid == sender.mid {
        acked := acked[sender.mid := acked[sender.mid] + {ack.value.idx}];
      }
      sender := sender.(waiting := false);
    }

    /** Leaving the retry loop of one fragment. */
    method LeaveRetry() returns (r: Outcome)
      requires Valid() && sender.Sending? && !sender.waiting && sender.idx in acked[sender.mid]
      modifies this`sender, this`done
      ensures Valid() && View() == Advance(old(View()))
      ensures r == if old(sender).idx + 1 < |old(sender).frags| then Going else Returned(size)
    {
      if sender.idx + 1 < |sender.frags| {
        sender := sender.(idx := sender.idx + 1, tries := 0);
        return Going;
      }
      sender, done := Idle, done + {|log| - 1};
      return Returned(size);
    }

    /** `recv` up to its loop: a closed stream returns no bytes. */
    method BeginRecv() returns (r: Reading)
      modifies this`receiving
      ensures View() == if old(closed) then old(View()) else old(View()).(receiving := true)
      ensures r == if old(closed) then Ended([]) else Polling
    {
      if closed {
        return Ended([]);
      }
      receiving := true;
      r := Polling;
    }

    /** One turn of the polling inside the loop of `recv`. `late`: both deadlines have passed, that of `next_message`
        and that of `recv`. They are tested only when there is no message: a duplicate starts the loop anew. */
    method RecvTurn(late: bool) returns (r: Reading)
      requires receiving
      modifies this`seen, this`receiving, this`returned, this`pulled, link`rx, link`rbuf
      ensures var got := Pull(old(link.View()), side, Data);
              && link.View() == got.1
              && var polled := if got.0.None? then old(View()) else TakeData(old(View()), got.0.value);
                 View() == if r == TimedOut then polled.(receiving := false) else polled
      ensures var got := Pull(old(link.View()), side, Data).0;
              var msg := if got.None? then None else FileFrame(old(link.rbuf.Get(side)), got.value).1;
              r == if msg.None? then (if late then TimedOut else Polling)
                   else if msg.value.0 in old(seen) then Polling else Ended(msg.value.1)
    {
      hide Pull, FileFrame;
      ghost var got;
      var msg: Option<(nat, seq<byte>)>;
      got, msg := link.NextMessageTurn(side);
      if got.Some? {
        pulled := pulled + [got.value];
      }
      if msg.None? {
        if !late {
          return Polling;
        }
        receiving := false;
        return TimedOut;
      }
      if msg.value.0 in seen {
        return Polling;
      }
      seen := seen + {msg.value.0};
      returned := returned + [msg.value];
      receiving := false;
      return Ended(msg.value.1);
    }

    method CloseStream()
      modifies this`closed
      ensures View() == old(View()).(closed := true)
    {
      closed := true;
    }
  }
}
