/** What every run of the ARQ keeps, and what it delivers. */
module LoRaDelivery {
  import opened Prelude
  import opened LoRaFrame
  import opened LoRaReceiver
  import opened LoRaProtocol

  // ---- monotonicity ----

  lemma HasMore(p: seq<Frame>, q: seq<Frame>)
    ensures forall m: nat, i: nat :: Has(p, m, i) ==> Has(p + q, m, i)
  {
    forall m: nat, i: nat | Has(p, m, i) ensures Has(p + q, m, i) {
      var k :| 0 <= k < |p| && p[k].mid == m && p[k].idx == i;
      assert (p + q)[k] == p[k];
    }
  }

  /** The line only loses frames, and the sender does not move. */
  lemma LineShrinks(d: Direction, d': Direction, air: seq<Frame>, chunk: nat)
    requires chunk > 0 && DirectionInv(d, chunk)
    requires d.underway == air + d'.underway && d' == d.(underway := d'.underway, airAcks := d'.airAcks)
    requires d'.airAcks == [] || d'.airAcks == d.airAcks
    ensures DirectionInv(d', chunk)
  {
    var line, line', a := d.Line(), d'.Line(), |d.arrived|;
    var src := (k: int) => if k < a then k else k + |air|;
    forall k | 0 <= k < |line'| ensures 0 <= src(k) < |line| && line'[k] == line[src(k)] {}
    forall i, j | 0 <= i < j < |line'| ensures Before(line'[i], line'[j]) {
      assert Before(line[src(i)], line[src(j)]);
    }
  }

  /** More of the line arrives, together with the acks that this justifies. */
  lemma MoreArrives(d: Direction, d': Direction, chunk: nat)
    requires chunk > 0 && DirectionInv(d, chunk)
    requires d'.st == d.st && d'.Line() == d.Line() && d.arrived <= d'.arrived
    requires Backed(d'.rxAcks, d'.arrived) && Backed(d'.airAcks, d'.arrived) && d'.txAcks == d.txAcks
    ensures DirectionInv(d', chunk)
  {
    assert d'.arrived == d.arrived + d'.arrived[|d.arrived|..];
    HasMore(d.arrived, d'.arrived[|d.arrived|..]);
  }

  // ---- the radio ----

  /** Popping moves the head of a queue into the air. */
  lemma PopTraffic(sys: System, s: Side)
    requires SidesInv(sys.link)
    ensures var d, d' := Traffic(sys, s), Traffic(sys.(link := Pop(sys.link)), s);
            d' == d || (d.airAcks == [] && d.txAcks != [] &&
                        d' == d.(airAcks := d.txAcks[..1], txAcks := d.txAcks[1..]))
  {
    var l, l' := sys.link, Pop(sys.link);
    if l.radio.Listening? && l.tx.Get(l.turn) != [] {
      var q := l.tx.Get(l.turn);
      assert q[0].side == l.turn;
      if l.turn == s {
        assert AirData(l'.radio, s) + Of(q[1..], Data) == Of(q, Data);
      } else {
        assert AirData(l'.radio, s) == AirData(l.radio, s) == [];
        assert l'.tx.Get(s) == l.tx.Get(s);
        assert AirAck(l'.radio, s) + Of(q[1..], Ack) == Of(q, Ack);
      }
    }
  }

  lemma PopKeeps(sys: System, s: Side, chunk: nat)
    requires chunk > 0 && SidesInv(sys.link) && DirectionInv(Traffic(sys, s), chunk)
    ensures DirectionInv(Traffic(Step(sys, RadioPop, chunk), s), chunk)
  {
    PopTraffic(sys, s);
  }

  lemma DropKeeps(sys: System, s: Side, chunk: nat)
    requires chunk > 0 && DirectionInv(Traffic(sys, s), chunk)
    ensures DirectionInv(Traffic(Step(sys, RadioDrop, chunk), s), chunk)
  {
    var d, d' := Traffic(sys, s), Traffic(Step(sys, RadioDrop, chunk), s);
    if sys.link.radio.InAir? {
      LineShrinks(d, d', AirData(sys.link.radio, s), chunk);
    }
  }

  /** Delivering a data frame moves it from the line to what has arrived, and owes its ack. */
  lemma DeliverDataTraffic(sys: System, s: Side)
    requires sys.link.radio.InAir? && sys.link.radio.frame.kind.Data?
    ensures var d, d' := Traffic(sys, s), Traffic(sys.(link := Deliver(sys.link)), s);
            var air := AirData(sys.link.radio, s);
            && d'.arrived == d.arrived + air && d.underway == air + d'.underway
            && d' == d.(arrived := d'.arrived, underway := d'.underway, airAcks := d'.airAcks)
            && d'.airAcks == if air == [] then [] else [AckFrame(air[0])]
  {
    var f, to := sys.link.radio.frame, sys.link.radio.frame.side.Other();
    OfSnoc(sys.link.rx.Get(to), f, Data);
    OfSnoc(sys.link.rx.Get(to), f, Ack);
  }

  lemma DeliverDataKeeps(sys: System, s: Side, chunk: nat)
    requires chunk > 0 && DirectionInv(Traffic(sys, s), chunk)
    requires sys.link.radio.InAir? && sys.link.radio.frame.kind.Data?
    ensures DirectionInv(Traffic(Step(sys, RadioDeliver, chunk), s), chunk)
  {
    DeliverDataTraffic(sys, s);
    var d, d' := Traffic(sys, s), Traffic(Step(sys, RadioDeliver, chunk), s);
    var air := AirData(sys.link.radio, s);
    assert d'.Line() == d.Line();
    HasMore(d.arrived, air);
    if air != [] { assert d'.arrived[|d.arrived|] == air[0]; }
    MoreArrives(d, d', chunk);
  }

  lemma DeliverAckTraffic(sys: System, s: Side)
    requires sys.link.radio.InAir? && sys.link.radio.frame.kind.Ack?
    ensures var d := Traffic(sys, s);
            Traffic(sys.(link := Deliver(sys.link)), s) == d.(rxAcks := d.rxAcks + d.airAcks, airAcks := [])
  {
    var f := sys.link.radio.frame;
    OfSnoc(sys.link.rx.Get(f.side.Other()), f, Data);
    OfSnoc(sys.link.rx.Get(f.side.Other()), f, Ack);
    hide Of;
    if f.side == s {
      assert Traffic(sys, s).airAcks == [];
    } else {
      assert Traffic(sys, s).airAcks == [f];
    }
  }

  lemma DeliverAckKeeps(sys: System, s: Side, chunk: nat)
    requires chunk > 0 && DirectionInv(Traffic(sys, s), chunk)
    requires sys.link.radio.InAir? && sys.link.radio.frame.kind.Ack?
    ensures DirectionInv(Traffic(Step(sys, RadioDeliver, chunk), s), chunk)
  {
    DeliverAckTraffic(sys, s);
    hide Traffic, LineInv, LogInv, SendingInv;
  }

  lemma DeliverKeeps(sys: System, s: Side, chunk: nat)
    requires chunk > 0 && DirectionInv(Traffic(sys, s), chunk)
    ensures DirectionInv(Traffic(Step(sys, RadioDeliver, chunk), s), chunk)
  {
    hide Traffic, DirectionInv;
    if sys.link.radio.InAir? {
      if sys.link.radio.frame.kind.Data? {
        DeliverDataKeeps(sys, s, chunk);
      } else {
        DeliverAckKeeps(sys, s, chunk);
      }
    }
  }

  /** Queueing the ack that is owed. */
  lemma AckTraffic(sys: System, s: Side)
    requires sys.link.radio.OweAck?
    ensures var d := Traffic(sys, s);
            Traffic(sys.(link := QueueAck(sys.link)), s) == d.(airAcks := [], txAcks := d.txAcks + d.airAcks)
  {
    var f := sys.link.radio.frame;
    hide Of;
    OfSnoc(sys.link.tx.Get(f.side.Other()), AckFrame(f), Data);
    OfSnoc(sys.link.tx.Get(f.side.Other()), AckFrame(f), Ack);
  }

  lemma AcksQueued(d: Direction, chunk: nat)
    requires chunk > 0 && DirectionInv(d, chunk)
    ensures DirectionInv(d.(airAcks := [], txAcks := d.txAcks + d.airAcks), chunk)
  {
    hide LineInv, LogInv, SendingInv;
  }

  lemma AckKeeps(sys: System, s: Side, chunk: nat)
    requires chunk > 0 && DirectionInv(Traffic(sys, s), chunk)
    ensures DirectionInv(Traffic(Step(sys, RadioAck, chunk), s), chunk)
  {
    hide DirectionInv, Traffic;
    if sys.link.radio.OweAck? {
      AckTraffic(sys, s);
      AcksQueued(Traffic(sys, s), chunk);
    }
  }

  // ---- the sender ----

  /** A longer log explains whatever the shorter one explained. */
  lemma LogExtends(log: seq<seq<byte>>, more: seq<seq<byte>>, line: seq<Frame>, arrived: seq<Frame>, chunk: nat)
    requires chunk > 0
    ensures AreFragments(line, log, chunk) ==> AreFragments(line, log + more, chunk)
    ensures forall m: nat :: Complete(arrived, m, log, chunk) ==> Complete(arrived, m, log + more, chunk)
  {
    forall k | 0 <= k < |line| && IsFragment(line[k], log, chunk) ensures IsFragment(line[k], log + more, chunk) {
      assert (log + more)[line[k].mid] == log[line[k].mid];
    }
  }

  lemma BeginKeeps(d: Direction, data: seq<byte>, chunk: nat)
    requires chunk > 0 && DirectionInv(d, chunk)
    requires |BeginSend(d.st, data, chunk).log| <= ID_SPACE
    ensures DirectionInv(d.(st := BeginSend(d.st, data, chunk)), chunk)
  {
    var st' := BeginSend(d.st, data, chunk);
    if st' != d.st {
      LogExtends(d.st.log, [data], d.Line(), d.arrived, chunk);
      assert d.st.nextId == |d.st.log|;
      assert forall k :: 0 <= k < |d.Line()| ==> d.Line()[k].mid < |d.st.log|;
    }
  }

  lemma TransmitKeeps(d: Direction, s: Side, chunk: nat)
    requires chunk > 0 && DirectionInv(d, chunk) && CanTransmit(d.st)
    ensures var f := DataFrame(s, d.st.sender.mid, d.st.sender.frags, d.st.sender.idx);
            DirectionInv(d.(st := AfterTransmit(d.st), underway := d.underway + [f]), chunk)
  {
    var f := DataFrame(s, d.st.sender.mid, d.st.sender.frags, d.st.sender.idx);
    var d' := d.(st := AfterTransmit(d.st), underway := d.underway + [f]);
    assert d'.Line() == d.Line() + [f];
    assert IsFragment(f, d.st.log, chunk);
  }

  lemma TakeAckKeeps(d: Direction, chunk: nat)
    requires chunk > 0 && DirectionInv(d, chunk) && d.rxAcks != []
    ensures DirectionInv(d.(st := TakeAck(d.st, Some(d.rxAcks[0])), rxAcks := d.rxAcks[1..]), chunk)
  {
    assert Has(d.arrived, d.rxAcks[0].mid, d.rxAcks[0].idx);
  }

  lemma AdvanceKeeps(d: Direction, chunk: nat)
    requires chunk > 0 && DirectionInv(d, chunk)
    ensures DirectionInv(d.(st := Advance(d.st)), chunk)
  {
    if Advance(d.st) != d.st {
      assert Has(d.arrived, d.st.sender.mid, d.st.sender.idx);
    }
  }

  lemma SendTraffic(l: Link, s: Side, f: Frame)
    requires f.kind.Data?
    ensures var l' := SendFrame(l, s, f);
            && l' == l.(tx := l'.tx) && l'.tx.Get(s.Other()) == l.tx.Get(s.Other())
            && Of(l'.tx.Get(s), Data) == Of(l.tx.Get(s), Data) + [f]
  {
    OfSnoc(l.tx.Get(s), f, Data);
  }

  /** Queueing a frame and taking an ack, seen from the whole system. */
  lemma TransmitTraffic(sys: System, s: Side, chunk: nat)
    requires chunk > 0 && CanTransmit(sys.streams.Get(s))
    ensures var st := sys.streams.Get(s);
            var f := DataFrame(s, st.sender.mid, st.sender.frags, st.sender.idx);
            Traffic(Step(sys, Transmit(s), chunk), s) ==
            Traffic(sys, s).(st := AfterTransmit(st), underway := Traffic(sys, s).underway + [f])
  {
    var st, sys' := sys.streams.Get(s), Step(sys, Transmit(s), chunk);
    var f := DataFrame(s, st.sender.mid, st.sender.frags, st.sender.idx);
    SendTraffic(sys.link, s, f);
    assert sys'.link == SendFrame(sys.link, s, f);
    assert sys'.streams.Get(s) == AfterTransmit(st) && sys'.streams.Get(s.Other()) == sys.streams.Get(s.Other());
    var air, q := AirData(sys.link.radio, s), Of(sys.link.tx.Get(s), Data);
    assert air + (q + [f]) == (air + q) + [f];
  }

  lemma TransmitStepKeeps(sys: System, s: Side, chunk: nat)
    requires chunk > 0 && DirectionInv(Traffic(sys, s), chunk)
    ensures DirectionInv(Traffic(Step(sys, Transmit(s), chunk), s), chunk)
  {
    if CanTransmit(sys.streams.Get(s)) {
      TransmitTraffic(sys, s, chunk);
      TransmitKeeps(Traffic(sys, s), s, chunk);
    }
  }

  lemma AckPullTraffic(sys: System, s: Side, chunk: nat)
    requires chunk > 0
    ensures var d, d' := Traffic(sys, s), Traffic(Step(sys, AckPull(s), chunk), s);
            || d' == d
            || (d.rxAcks != [] && d' == d.(st := TakeAck(d.st, Some(d.rxAcks[0])), rxAcks := d.rxAcks[1..]))
  {
    PullOf(sys.link.rx.Get(s), Ack);
  }

  lemma AckPullStepKeeps(sys: System, s: Side, chunk: nat)
    requires chunk > 0 && DirectionInv(Traffic(sys, s), chunk)
    ensures DirectionInv(Traffic(Step(sys, AckPull(s), chunk), s), chunk)
  {
    hide Traffic, DirectionInv, Step;
    AckPullTraffic(sys, s, chunk);
    if Traffic(Step(sys, AckPull(s), chunk), s) != Traffic(sys, s) {
      TakeAckKeeps(Traffic(sys, s), chunk);
    }
  }

  /** Steps that only move a thread to or from its next wait, or turn a flag. */
  predicate Idles(ev: Event) {
    ev.Enter? || ev.BeginRecv? || ev.RecvTimeout? || ev.Close?
  }

  lemma LocalStepKeeps(sys: System, ev: Event, s: Side, chunk: nat)
    requires chunk > 0 && DirectionInv(Traffic(sys, s), chunk)
    requires (ev.Begin? || ev.AckTimeout? || ev.Proceed? || Idles(ev)) && ev.s == s
    requires |Step(sys, ev, chunk).streams.Get(s).log| <= ID_SPACE
    ensures DirectionInv(Traffic(Step(sys, ev, chunk), s), chunk)
  {
    hide DirectionInv, BeginSend, Advance, TakeAck, Of, AirData, AirAck, Pull, SendFrame, Accept;
    var d, d' := Traffic(sys, s), Traffic(Step(sys, ev, chunk), s);
    assert d' == d.(st := d'.st);
    hide Traffic;
    if ev.Begin? {
      BeginKeeps(d, ev.data, chunk);
    } else if ev.Proceed? {
      AdvanceKeeps(d, chunk);
    } else if ev.AckTimeout? {
      TimeoutKeeps(d, chunk);
    } else {
      FlagKeeps(d, d'.st.closed, d'.st.receiving, d'.st.calling, chunk);
    }
  }

  lemma TimeoutKeeps(d: Direction, chunk: nat)
    requires chunk > 0 && DirectionInv(d, chunk)
    ensures DirectionInv(d.(st := TakeAck(d.st, None)), chunk)
  {
  }

  lemma FlagKeeps(d: Direction, closed: bool, receiving: bool, calling: multiset<seq<byte>>, chunk: nat)
    requires chunk > 0 && DirectionInv(d, chunk) && ([] in calling ==> [] in d.st.calling)
    ensures DirectionInv(d.(st := d.st.(closed := closed, receiving := receiving, calling := calling)), chunk)
  {
  }

  /** The steps of side s as a sender. */
  lemma SenderKeeps(sys: System, ev: Event, s: Side, chunk: nat)
    requires chunk > 0 && DirectionInv(Traffic(sys, s), chunk)
    requires (ev.Begin? || ev.Transmit? || ev.AckPull? || ev.AckTimeout? || ev.Proceed? || Idles(ev)) && ev.s == s
    requires |Step(sys, ev, chunk).streams.Get(s).log| <= ID_SPACE
    ensures DirectionInv(Traffic(Step(sys, ev, chunk), s), chunk)
  {
    hide Step, Traffic, DirectionInv;
    match ev
    case Transmit(_) => TransmitStepKeeps(sys, s, chunk);
    case AckPull(_) => AckPullStepKeeps(sys, s, chunk);
    case _ => LocalStepKeeps(sys, ev, s, chunk);
  }

  /** The steps of the reader of this direction, and the other side's own sending, which leave it alone. */
  lemma ReaderKeeps(sys: System, s: Side, chunk: nat)
    requires chunk > 0
    ensures Traffic(Step(sys, Recv(s.Other()), chunk), s) == Traffic(sys, s)
  {
    hide Of, FirstOf, Accept;
    var q := sys.link.rx.Get(s.Other());
    PullOf(q, Data);
    if FirstOf(q, Data) < |q| && sys.streams.Get(s.Other()).receiving {
      PulledIsArrived(sys.streams.Get(s.Other()).pulled, Of(q, Data));
    }
  }

  lemma PulledIsArrived(pulled: seq<Frame>, waiting: seq<Frame>)
    requires waiting != []
    ensures pulled + waiting == (pulled + [waiting[0]]) + waiting[1..]
  {
  }

  lemma OtherTransmit(sys: System, s: Side, chunk: nat)
    requires chunk > 0
    ensures Traffic(Step(sys, Transmit(s.Other()), chunk), s) == Traffic(sys, s)
  {
    var st := sys.streams.Get(s.Other());
    if CanTransmit(st) {
      OfSnoc(sys.link.tx.Get(s.Other()), DataFrame(s.Other(), st.sender.mid, st.sender.frags, st.sender.idx), Ack);
    }
  }

  lemma OtherAckPull(sys: System, s: Side, chunk: nat)
    requires chunk > 0
    ensures Traffic(Step(sys, AckPull(s.Other()), chunk), s) == Traffic(sys, s)
  {
    hide Of, FirstOf;
    PullOf(sys.link.rx.Get(s.Other()), Ack);
  }

  lemma OtherTraffic(sys: System, ev: Event, s: Side, chunk: nat)
    requires chunk > 0
    requires ev.Begin? || ev.Transmit? || ev.AckPull? || ev.AckTimeout? || ev.Proceed? || Idles(ev)
    requires ev.s == s.Other()
    ensures Traffic(Step(sys, ev, chunk), s) == Traffic(sys, s)
  {
    hide Of, BeginSend, Advance, TakeAck;
    if ev.Transmit? {
      OtherTransmit(sys, s, chunk);
    } else if ev.AckPull? {
      OtherAckPull(sys, s, chunk);
    } else {
      ReaderUntouched(sys, ev, chunk, s.Other());
    }
  }

  /** The reader of the other direction takes data frames from the queue that holds this direction's acks. */
  lemma OtherReaderTraffic(sys: System, s: Side, chunk: nat)
    requires chunk > 0
    ensures var d, d' := Traffic(sys, s), Traffic(Step(sys, Recv(s), chunk), s);
            d' == d.(st := d.st.(receiver := d'.st.receiver, receiving := d'.st.receiving, pulled := d'.st.pulled))
  {
    hide Of, FirstOf;
    PullOf(sys.link.rx.Get(s), Data);
  }

  lemma OtherReaderKeeps(sys: System, s: Side, chunk: nat)
    requires chunk > 0 && DirectionInv(Traffic(sys, s), chunk)
    ensures DirectionInv(Traffic(Step(sys, Recv(s), chunk), s), chunk)
  {
    OtherReaderTraffic(sys, s, chunk);
  }

  lemma StepKeeps(sys: System, ev: Event, s: Side, chunk: nat)
    requires chunk > 0 && SidesInv(sys.link) && DirectionInv(Traffic(sys, s), chunk)
    requires |Step(sys, ev, chunk).streams.Get(s).log| <= ID_SPACE
    ensures DirectionInv(Traffic(Step(sys, ev, chunk), s), chunk)
  {
    hide Step, Traffic, DirectionInv, SidesInv;
    match ev
    case RadioPop => PopKeeps(sys, s, chunk);
    case RadioDrop => DropKeeps(sys, s, chunk);
    case RadioDeliver => DeliverKeeps(sys, s, chunk);
    case RadioAck => AckKeeps(sys, s, chunk);
    case Recv(t) => if t == s { OtherReaderKeeps(sys, s, chunk); } else { ReaderKeeps(sys, s, chunk); }
    case _ => if ev.s == s { SenderKeeps(sys, ev, s, chunk); } else { OtherTraffic(sys, ev, s, chunk); }
  }

  lemma LogGrows(sys: System, ev: Event, s: Side, chunk: nat)
    requires chunk > 0
    ensures |sys.streams.Get(s).log| <= |Step(sys, ev, chunk).streams.Get(s).log|
  {
  }

  /** What every step keeps, as long as side s starts at most 65536 messages. */
  ghost predicate SystemInv(sys: System, s: Side, chunk: nat)
    requires chunk > 0
  {
    && SidesInv(sys.link)
    && ReadersInv(sys)
    && (|sys.streams.Get(s).log| <= ID_SPACE ==> DirectionInv(Traffic(sys, s), chunk))
  }

  lemma SystemInvKept(sys: System, ev: Event, s: Side, chunk: nat)
    requires chunk > 0 && SystemInv(sys, s, chunk)
    ensures SystemInv(Step(sys, ev, chunk), s, chunk)
  {
    hide Step, Traffic, DirectionInv, SidesInv, ReadersInv;
    SidesKept(sys, ev, chunk);
    ReadersKept(sys, ev, chunk);
    LogGrows(sys, ev, s, chunk);
    if |Step(sys, ev, chunk).streams.Get(s).log| <= ID_SPACE {
      StepKeeps(sys, ev, s, chunk);
    }
  }

  /** What holds in every state of every run. */
  lemma {:induction false} RunInvariant(evs: seq<Event>, s: Side, chunk: nat)
    requires chunk > 0
    ensures SystemInv(Run(INIT, evs, chunk), s, chunk)
  {
    if evs != [] {
      hide Step, SystemInv;
      RunInvariant(evs[..|evs| - 1], s, chunk);
      SystemInvKept(Run(INIT, evs[..|evs| - 1], chunk), evs[|evs| - 1], s, chunk);
    }
  }

  /** In every run, with any losses, timeouts and interleavings, the messages that come out of `recv` on
      one side are messages that went into `sendall` on the other: byte for byte, in order, each once. When the
      reader's queue holds no data, every message whose `sendall` returned is among them. */
  lemma ExactlyOnceInOrder(evs: seq<Event>, s: Side, chunk: nat)
    requires chunk > 0
    requires |Run(INIT, evs, chunk).streams.Get(s).log| <= ID_SPACE
    ensures var sys := Run(INIT, evs, chunk);
            var sent, got := sys.streams.Get(s), sys.streams.Get(s.Other()).receiver.returned;
            && InOrder(got, sent.log)
            && (forall k :: 0 <= k < |got| ==> got[k].1 != [])
            && (forall m: nat :: Returned(got, m) <==> Complete(sys.streams.Get(s.Other()).pulled, m, sent.log, chunk))
            && (Of(sys.link.rx.Get(s.Other()), Data) == [] ==>
                  forall m :: m in sent.done ==> 0 <= m && Returned(got, m))
  {
    RunInvariant(evs, s, chunk);
    var sys := Run(INIT, evs, chunk);
    var sent, reader := sys.streams.Get(s), sys.streams.Get(s.Other());
    var d := Traffic(sys, s);
    assert forall k :: 0 <= k < |reader.pulled| ==> reader.pulled[k] == d.Line()[k];
    ReceiveCorrect(reader.pulled, sent.log, chunk);
    assert ReaderInv(reader);
    forall m: nat ensures Returned(reader.receiver.returned, m) <==> Complete(reader.pulled, m, sent.log, chunk) {
      assert MessageInv(reader.receiver, reader.pulled, m, sent.log, chunk);
    }
    if Of(sys.link.rx.Get(s.Other()), Data) == [] {
      assert d.arrived == reader.pulled;
      forall m | m in sent.done ensures 0 <= m && Returned(reader.receiver.returned, m) {
        assert Complete(reader.pulled, m, sent.log, chunk);
      }
    }
  }

  // ---- after close ----

  /** From t to t', what was taken for sending is what threads already waited for the lock with, and what was given out
      is at most what a `recv` under way still could. */
  ghost predicate Winding(t: Stream, t': Stream) {
    && t'.closed
    && t.log <= t'.log && t'.calling <= t.calling
    && multiset(t'.log) + t'.calling == multiset(t.log) + t.calling
    && (t.calling == multiset{} ==> t'.log == t.log && (t.sender.Idle? ==> t'.sender.Idle?))
    && t.receiver.returned <= t'.receiver.returned
    && |t'.receiver.returned| + (if t'.receiving then 1 else 0) <= |t.receiver.returned| + if t.receiving then 1 else 0
  }

  lemma ClosedStep(sys: System, ev: Event, s: Side, chunk: nat)
    requires chunk > 0 && sys.streams.Get(s).closed
    ensures Winding(sys.streams.Get(s), Step(sys, ev, chunk).streams.Get(s))
  {
    hide Winding, FileFrame, Pull, Pop, Drop, Deliver, QueueAck, BeginSend, TakeData, TakeAck, Advance, AfterTransmit;
    var t, t' := sys.streams.Get(s), Step(sys, ev, chunk).streams.Get(s);
    WindingFlags(t, t.receiving);
    if ev.Begin? && ev.s == s {
      WindingBegin(t, ev.data, chunk);
    } else if ev.Recv? && ev.s == s {
      var f := Pull(sys.link, s, Data).0;
      if f.Some? && t.receiving { WindingTake(t, f.value); }
    } else if ev.RecvTimeout? && ev.s == s {
      WindingFlags(t, false);
    } else if (ev.Transmit? || ev.AckPull? || ev.AckTimeout? || ev.Proceed?) && ev.s == s {
      SenderSteps(t, if ev.AckPull? then Pull(sys.link, s, Ack).0 else None);
      WindingSender(t, t');
    }
  }

  lemma WindingBegin(t: Stream, data: seq<byte>, chunk: nat)
    requires chunk > 0 && t.closed
    ensures Winding(t, BeginSend(t, data, chunk))
  {
    hide Fragments, Packable;
  }

  lemma WindingTake(t: Stream, f: Frame)
    requires t.closed && t.receiving
    ensures Winding(t, TakeData(t, f))
  {
    hide FileFrame;
  }

  lemma WindingFlags(t: Stream, receiving: bool)
    requires t.closed && (receiving ==> t.receiving)
    ensures Winding(t, t.(receiving := receiving))
  {
  }

  lemma WindingSender(t: Stream, t': Stream)
    requires t.closed && (t.sender.Idle? ==> t'.sender.Idle?)
    requires t' == t.(sender := t'.sender, acked := t'.acked, done := t'.done)
    ensures Winding(t, t')
  {
  }

  /** What a running `sendall` does touches the sender only. */
  lemma SenderSteps(t: Stream, ack: Option<Frame>)
    ensures var u := TakeAck(t, ack); u == t.(sender := u.sender, acked := u.acked) && (t.sender.Idle? ==> u == t)
    ensures var u := Advance(t); u == t.(sender := u.sender, done := u.done) && (t.sender.Idle? ==> u == t)
    ensures CanTransmit(t) ==> var u := AfterTransmit(t); u == t.(sender := u.sender) && !t.sender.Idle?
  {
  }

  /** After close, however the run goes on: of the messages of the threads that wait for the lock of `sendall` some may
      still be sent, each once, and no others; what a side hands out grows by one message at most, and only if its
      reader was inside `recv` when it was closed. */
  lemma {:induction false} ClosedRun(sys: System, evs: seq<Event>, s: Side, chunk: nat)
    requires chunk > 0 && sys.streams.Get(s).closed
    ensures Winding(sys.streams.Get(s), Run(sys, evs, chunk).streams.Get(s))
  {
    if evs != [] {
      var init := evs[..|evs| - 1];
      ClosedRun(sys, init, s, chunk);
      ClosedStep(Run(sys, init, chunk), evs[|evs| - 1], s, chunk);
      hide Step;
    }
  }

  /** Threads that had passed the test of `sendall` before close do send after it: for any messages there is a run in
      which close comes first and the message is taken for sending all the same. */
  lemma SentAfterClose(data: seq<byte>, s: Side, chunk: nat) returns (evs: seq<Event>)
    requires chunk > 0 && data != [] && Packable(Fragments(data, chunk))
    ensures |evs| == 3 && evs[1] == Close(s)
    ensures var st := Run(INIT, evs, chunk).streams.Get(s);
            st.closed && st.log == [data] && st.sender == Sending(0, Fragments(data, chunk), 0, 0, false)
  {
    hide Step, BeginSend, EnterSend, Fragments, Packable;
    var e, c, b := Enter(s, data), Close(s), Begin(s, data);
    evs := [] + [e] + [c] + [b];
    assert Run(INIT, [], chunk) == INIT;
    hide Run;
    RunOne(INIT, [], e, chunk);
    RunOne(INIT, [] + [e], c, chunk);
    RunOne(INIT, [] + [e] + [c], b, chunk);
    CallSteps(INIT, data, s, chunk);
    FreshCall(data, chunk);
  }

  lemma CallSteps(sys: System, data: seq<byte>, s: Side, chunk: nat)
    requires chunk > 0
    ensures Step(Step(Step(sys, Enter(s, data), chunk), Close(s), chunk), Begin(s, data), chunk).streams.Get(s) ==
            BeginSend(EnterSend(sys.streams.Get(s), data).(closed := true), data, chunk)
  {
    hide BeginSend, EnterSend, Step;
    var s1 := Step(sys, Enter(s, data), chunk);
    var s2 := Step(s1, Close(s), chunk);
    CallStep(sys, Enter(s, data), s, chunk);
    CallStep(s1, Close(s), s, chunk);
    CallStep(s2, Begin(s, data), s, chunk);
  }

  lemma FreshCall(data: seq<byte>, chunk: nat)
    requires chunk > 0 && data != [] && Packable(Fragments(data, chunk))
    ensures var st := BeginSend(EnterSend(NEW_STREAM, data).(closed := true), data, chunk);
            st.closed && st.log == [data] && st.sender == Sending(0, Fragments(data, chunk), 0, 0, false)
  {
    hide Fragments, Packable;
    assert [] + [data] == [data];
  }

  lemma CallStep(sys: System, ev: Event, s: Side, chunk: nat)
    requires chunk > 0 && (ev.Enter? || ev.Begin? || ev.Close?) && ev.s == s
    ensures var st := sys.streams.Get(s);
            Step(sys, ev, chunk).streams.Get(s) ==
            if ev.Enter? then EnterSend(st, ev.data)
            else if ev.Begin? then BeginSend(st, ev.data, chunk)
            else st.(closed := true)
  {
    hide BeginSend, EnterSend;
  }

  lemma RunOne(sys: System, evs: seq<Event>, ev: Event, chunk: nat)
    requires chunk > 0
    ensures Run(sys, evs + [ev], chunk) == Step(Run(sys, evs, chunk), ev, chunk)
  {
    hide Step;
    assert (evs + [ev])[..|evs|] == evs;
  }
}
