/** What the ARQ of harness/lora.py gets done when no frame is lost: the radio serves both sides, and with fewer than
    forty old acknowledgements still to come a message gets through. */
module LoRaProgress {
  import opened Prelude
  import opened LoRaFrame
  import opened LoRaReceiver
  import opened LoRaProtocol
  import opened LoRaDelivery

  // ---- the radio serves either side ----

  /** Whichever side's turn it is, the frame at the head of a queue is in the air after two slots at most; a frame of
      the other side that goes first ends in between. */
  lemma Served(sys: System, s: Side, chunk: nat) returns (evs: seq<Event>)
    requires chunk > 0 && sys.link.radio.Listening? && sys.link.tx.Get(s) != []
    ensures evs in {[RadioPop], [RadioPop, RadioPop], [RadioPop, RadioDrop, RadioPop]}
    ensures Run(sys, evs, chunk).link.radio == InAir(sys.link.tx.Get(s)[0])
  {
    var s1 := Step(sys, RadioPop, chunk);
    RunSteps(sys, RadioPop, RadioPop, RadioPop, chunk);
    RunSteps(sys, RadioPop, RadioDrop, RadioPop, chunk);
    if sys.link.turn == s {
      evs := [RadioPop];
    } else if s1.link.radio.Listening? {
      evs := [RadioPop, RadioPop];
    } else {
      evs := [RadioPop, RadioDrop, RadioPop];
    }
  }

  lemma RunSteps(sys: System, a: Event, b: Event, c: Event, chunk: nat)
    requires chunk > 0
    ensures Run(sys, [a], chunk) == Step(sys, a, chunk)
    ensures Run(sys, [a, b], chunk) == Step(Step(sys, a, chunk), b, chunk)
    ensures Run(sys, [a, b, c], chunk) == Step(Step(Step(sys, a, chunk), b, chunk), c, chunk)
  {
    assert Run(sys, [], chunk) == sys;
    hide Step, Run;
    assert [] + [a] == [a] && [a] + [b] == [a, b] && [a, b] + [c] == [a, b, c];
    RunOne(sys, [], a, chunk);
    RunOne(sys, [a], b, chunk);
    RunOne(sys, [a, b], c, chunk);
  }

  lemma RunSingle(sys: System, ev: Event, chunk: nat)
    requires chunk > 0
    ensures Run(sys, [ev], chunk) == Step(sys, ev, chunk)
  {
    RunSteps(sys, ev, ev, ev, chunk);
  }

  // ---- acknowledgements to come ----

  function AcksOf(q: seq<Frame>): (r: seq<Frame>)
    ensures |r| == |q| && forall i :: 0 <= i < |q| ==> r[i] == AckFrame(q[i])
  {
    seq(|q|, i requires 0 <= i < |q| => AckFrame(q[i]))
  }

  /** The acknowledgements that come to a sender if nothing is lost, in their order: at its queue, in the air, at the
      other side, owed, and those of the data frames on their way. */
  function Future(d: Direction, radio: Radio): seq<Frame> {
    d.rxAcks + (if radio.InAir? then d.airAcks else []) + d.txAcks + (if radio.OweAck? then d.airAcks else [])
    + AcksOf(d.underway)
  }

  function FutureAcks(sys: System, s: Side): seq<Frame> {
    Future(Traffic(sys, s), sys.link.radio)
  }

  predicate RadioWorks(ev: Event) {
    ev.RadioPop? || ev.RadioDeliver? || ev.RadioAck?
  }

  lemma AcksAppend(p: seq<Frame>, q: seq<Frame>)
    ensures AcksOf(p + q) == AcksOf(p) + AcksOf(q)
  {
  }

  lemma AirShape(sys: System, s: Side)
    ensures var d := Traffic(sys, s);
      && (sys.link.radio.Listening? ==> d.airAcks == [])
      && (sys.link.radio.InAir? && sys.link.radio.frame.kind.Data? ==> d.airAcks == [])
  {
    hide Of;
  }

  /** The head of a queue in the air. */
  lemma PoppedFuture(d: Direction, d': Direction, radio: Radio, radio': Radio)
    requires radio.Listening? && !radio'.OweAck? && d.airAcks == [] && (radio'.Listening? ==> d'.airAcks == [])
    requires d' == d || (d.txAcks != [] && d' == d.(airAcks := d.txAcks[..1], txAcks := d.txAcks[1..]))
    ensures Future(d', radio') == Future(d, radio)
  {
    if d' != d { assert d.txAcks[..1] + d.txAcks[1..] == d.txAcks; }
  }

  lemma PopFuture(sys: System, s: Side, chunk: nat)
    requires chunk > 0 && SidesInv(sys.link)
    ensures FutureAcks(Step(sys, RadioPop, chunk), s) == FutureAcks(sys, s)
  {
    var sys' := Step(sys, RadioPop, chunk);
    if sys.link.radio.Listening? {
      PopTraffic(sys, s);
      AirShape(sys, s);
      AirShape(sys', s);
      assert !sys'.link.radio.OweAck?;
      hide Traffic, Future, Step;
      PoppedFuture(Traffic(sys, s), Traffic(sys', s), sys.link.radio, sys'.link.radio);
    } else {
      assert sys' == sys;
    }
  }

  /** A data frame that arrives, and its acknowledgement that is owed. */
  lemma ArrivedFuture(d: Direction, d': Direction, air: seq<Frame>, radio: Radio, radio': Radio)
    requires radio.InAir? && radio'.OweAck? && d.airAcks == [] && |air| <= 1
    requires d'.rxAcks == d.rxAcks && d'.txAcks == d.txAcks && d.underway == air + d'.underway
    requires d'.airAcks == if air == [] then [] else [AckFrame(air[0])]
    ensures Future(d', radio') == Future(d, radio)
  {
    AcksAppend(air, d'.underway);
    assert AcksOf(air) == d'.airAcks;
  }

  lemma DeliverDataFuture(sys: System, s: Side, chunk: nat)
    requires chunk > 0 && sys.link.radio.InAir? && sys.link.radio.frame.kind.Data?
    ensures FutureAcks(Step(sys, RadioDeliver, chunk), s) == FutureAcks(sys, s)
  {
    DeliverDataTraffic(sys, s);
    AirShape(sys, s);
    var sys' := Step(sys, RadioDeliver, chunk);
    assert sys'.link.radio.OweAck?;
    hide Traffic, Future, Step;
    ArrivedFuture(Traffic(sys, s), Traffic(sys', s), AirData(sys.link.radio, s), sys.link.radio, sys'.link.radio);
  }

  /** An acknowledgement that arrives. */
  lemma CameFuture(d: Direction, d': Direction, radio: Radio, radio': Radio)
    requires radio.InAir? && radio'.Listening? && d' == d.(rxAcks := d.rxAcks + d.airAcks, airAcks := [])
    ensures Future(d', radio') == Future(d, radio)
  {
  }

  lemma DeliverAckFuture(sys: System, s: Side, chunk: nat)
    requires chunk > 0 && sys.link.radio.InAir? && sys.link.radio.frame.kind.Ack?
    ensures FutureAcks(Step(sys, RadioDeliver, chunk), s) == FutureAcks(sys, s)
  {
    DeliverAckTraffic(sys, s);
    var sys' := Step(sys, RadioDeliver, chunk);
    assert sys'.link.radio.Listening?;
    hide Traffic, Future, Step;
    CameFuture(Traffic(sys, s), Traffic(sys', s), sys.link.radio, sys'.link.radio);
  }

  /** One that is owed and gets queued. */
  lemma QueuedFuture(d: Direction, d': Direction, radio: Radio, radio': Radio)
    requires radio.OweAck? && radio'.Listening? && d' == d.(airAcks := [], txAcks := d.txAcks + d.airAcks)
    ensures Future(d', radio') == Future(d, radio)
  {
  }

  lemma QueueAckFuture(sys: System, s: Side, chunk: nat)
    requires chunk > 0
    ensures FutureAcks(Step(sys, RadioAck, chunk), s) == FutureAcks(sys, s)
  {
    if sys.link.radio.OweAck? {
      AckTraffic(sys, s);
      var sys' := Step(sys, RadioAck, chunk);
      assert sys'.link.radio.Listening?;
      hide Traffic, Future, Step;
      QueuedFuture(Traffic(sys, s), Traffic(sys', s), sys.link.radio, sys'.link.radio);
    }
  }

  /** The radio moves acknowledgements along and makes none but those to come. */
  lemma RadioFuture(sys: System, ev: Event, s: Side, chunk: nat)
    requires chunk > 0 && SidesInv(sys.link) && RadioWorks(ev)
    ensures FutureAcks(Step(sys, ev, chunk), s) == FutureAcks(sys, s)
    ensures Step(sys, ev, chunk).streams == sys.streams && SidesInv(Step(sys, ev, chunk).link)
  {
    SidesKept(sys, ev, chunk);
    hide FutureAcks, SidesInv, Pop, QueueAck;
    if ev.RadioPop? {
      PopFuture(sys, s, chunk);
    } else if ev.RadioAck? {
      QueueAckFuture(sys, s, chunk);
    } else if sys.link.radio.InAir? {
      if sys.link.radio.frame.kind.Data? {
        DeliverDataFuture(sys, s, chunk);
      } else {
        DeliverAckFuture(sys, s, chunk);
      }
    }
  }

  /** A transmission adds one at the end. */
  lemma TransmitFuture(sys: System, s: Side, chunk: nat)
    requires chunk > 0 && CanTransmit(sys.streams.Get(s))
    ensures var st := sys.streams.Get(s);
            FutureAcks(Step(sys, Transmit(s), chunk), s) ==
            FutureAcks(sys, s) + [AckFrame(DataFrame(s, st.sender.mid, st.sender.frags, st.sender.idx))]
  {
    TransmitTraffic(sys, s, chunk);
    var st, d := sys.streams.Get(s), Traffic(sys, s);
    var f := DataFrame(s, st.sender.mid, st.sender.frags, st.sender.idx);
    AcksAppend(d.underway, [f]);
    assert Step(sys, Transmit(s), chunk).link.radio == sys.link.radio;
    hide Traffic, Step;
    assert AcksOf([f]) == [AckFrame(f)];
  }

  lemma TakenFuture(d: Direction, d': Direction, radio: Radio)
    requires d.rxAcks != [] && d' == d.(st := d'.st, rxAcks := d.rxAcks[1..])
    ensures Future(d, radio) != [] && Future(d, radio)[0] == d.rxAcks[0] && Future(d', radio) == Future(d, radio)[1..]
  {
  }

  /** A wait that finds one takes the first. */
  lemma AckPullFuture(sys: System, s: Side, chunk: nat)
    requires chunk > 0 && sys.streams.Get(s).sender.Sending? && sys.streams.Get(s).sender.waiting
    ensures var sys', fa := Step(sys, AckPull(s), chunk), FutureAcks(sys, s);
      if Traffic(sys, s).rxAcks != [] then
        && fa != [] && fa[0] == Traffic(sys, s).rxAcks[0]
        && FutureAcks(sys', s) == fa[1..] && sys'.streams.Get(s) == TakeAck(sys.streams.Get(s), Some(fa[0]))
      else sys' == sys
  {
    AckPullTaken(sys, s, chunk);
    var sys' := Step(sys, AckPull(s), chunk);
    hide Traffic, Step, Future, TakeAck;
    if Traffic(sys, s).rxAcks != [] {
      TakenFuture(Traffic(sys, s), Traffic(sys', s), sys.link.radio);
    }
  }

  lemma AckPullTaken(sys: System, s: Side, chunk: nat)
    requires chunk > 0 && sys.streams.Get(s).sender.Sending? && sys.streams.Get(s).sender.waiting
    ensures var sys', d := Step(sys, AckPull(s), chunk), Traffic(sys, s);
      if d.rxAcks != [] then
        && sys'.link.radio == sys.link.radio
        && sys'.streams.Get(s) == TakeAck(d.st, Some(d.rxAcks[0]))
        && Traffic(sys', s) == d.(st := TakeAck(d.st, Some(d.rxAcks[0])), rxAcks := d.rxAcks[1..])
      else sys' == sys
  {
    hide Of, FirstOf;
    PullOf(sys.link.rx.Get(s), Ack);
  }

  /** No other step makes or takes one. */
  lemma OtherFuture(sys: System, ev: Event, s: Side, chunk: nat)
    requires chunk > 0 && !RadioWorks(ev) && !ev.RadioDrop?
    requires (ev.Transmit? || ev.AckPull?) ==> ev.s == s.Other()
    ensures FutureAcks(Step(sys, ev, chunk), s) == FutureAcks(sys, s)
  {
    assert Step(sys, ev, chunk).link.radio == sys.link.radio;
    if ev.Recv? {
      if ev.s == s { OtherReaderTraffic(sys, s, chunk); } else { ReaderKeeps(sys, s, chunk); }
    } else if ev.s == s.Other() {
      OtherTraffic(sys, ev, s, chunk);
    } else {
      assert Step(sys, ev, chunk).link == sys.link;
      assert Step(sys, ev, chunk).streams.Get(s.Other()) == sys.streams.Get(s.Other());
    }
  }

  // ---- the radio at work until nothing is left ----

  ghost predicate NoDrop(evs: seq<Event>) {
    forall i :: 0 <= i < |evs| ==> !evs[i].RadioDrop?
  }

  lemma RunCons(sys: System, ev: Event, rest: seq<Event>, chunk: nat)
    requires chunk > 0
    ensures Run(sys, [ev] + rest, chunk) == Run(Step(sys, ev, chunk), rest, chunk)
    ensures NoDrop([ev] + rest) <==> !ev.RadioDrop? && NoDrop(rest)
  {
    RunAppend(sys, [ev], rest, chunk);
    assert [ev][..0] == [];
    hide Step;
    assert ([ev] + rest)[0] == ev && forall i :: 0 <= i < |rest| ==> ([ev] + rest)[i + 1] == rest[i];
  }

  lemma NoDropAppend(p: seq<Event>, q: seq<Event>)
    requires NoDrop(p) && NoDrop(q)
    ensures NoDrop(p + q)
  {
  }

  /** One run behind the other. */
  lemma RunBehind(sys: System, p: seq<Event>, s1: System, q: seq<Event>, s2: System, chunk: nat)
    requires chunk > 0 && NoDrop(p) && NoDrop(q) && s1 == Run(sys, p, chunk) && s2 == Run(s1, q, chunk)
    ensures NoDrop(p + q) && Run(sys, p + q, chunk) == s2
  {
    hide Run;
    RunAppend(sys, p, q, chunk);
    NoDropAppend(p, q);
  }

  /** The slots that the frames of a queue still take, with the acknowledgements they cause. */
  function Slots(q: seq<Frame>): nat {
    if q == [] then 0 else (if q[0].kind.Data? then 5 else 2) + Slots(q[1..])
  }

  lemma {:induction false} SlotsSnoc(q: seq<Frame>, f: Frame)
    ensures Slots(q + [f]) == Slots(q) + if f.kind.Data? then 5 else 2
  {
    if q == [] {
      assert [] + [f] == [f] && [f][1..] == [];
    } else {
      SlotsSnoc(q[1..], f);
      assert (q + [f])[1..] == q[1..] + [f];
    }
  }

  function RadioSlots(radio: Radio): nat {
    match radio
    case Listening => 0
    case InAir(f) => if f.kind.Data? then 4 else 1
    case OweAck(_) => 3
  }

  function LinkSlots(l: Link): nat {
    Slots(l.tx.a) + Slots(l.tx.b) + RadioSlots(l.radio)
  }

  lemma PopSlots(l: Link)
    requires l.radio.Listening?
    ensures l.tx.Get(l.turn) != [] ==> LinkSlots(Pop(l)) < LinkSlots(l)
    ensures l.tx.Get(l.turn) == [] ==>
      LinkSlots(Pop(l)) == LinkSlots(l) && Pop(l).radio.Listening? && Pop(l).turn != l.turn && Pop(l).tx == l.tx
  {
  }

  lemma DeliverSlots(l: Link)
    ensures l.radio.InAir? ==> LinkSlots(Deliver(l)) < LinkSlots(l)
    ensures l.radio.OweAck? ==> LinkSlots(QueueAck(l)) < LinkSlots(l)
  {
    if l.radio.OweAck? {
      SlotsSnoc(l.tx.Get(l.radio.frame.side.Other()), AckFrame(l.radio.frame));
      hide Slots;
    }
  }

  ghost predicate Drained(l: Link) {
    l.radio.Listening? && l.tx.a == [] && l.tx.b == []
  }

  /** Without a loss, and without any step of another thread, the radio comes to rest, and then all acknowledgements
      that were to come have come. */
  lemma {:induction false} Drain(sys: System, s: Side, chunk: nat) returns (evs: seq<Event>, sys': System)
    requires chunk > 0 && SidesInv(sys.link)
    ensures NoDrop(evs) && sys' == Run(sys, evs, chunk) && Drained(sys'.link) && SidesInv(sys'.link)
    ensures sys'.streams == sys.streams && FutureAcks(sys', s) == FutureAcks(sys, s)
    decreases LinkSlots(sys.link), if sys.link.tx.Get(sys.link.turn) == [] then 1 else 0
  {
    if Drained(sys.link) {
      evs, sys' := [], sys;
    } else {
      var ev := if sys.link.radio.InAir? then RadioDeliver else if sys.link.radio.OweAck? then RadioAck else RadioPop;
      RadioFuture(sys, ev, s, chunk);
      DeliverSlots(sys.link);
      if sys.link.radio.Listening? { PopSlots(sys.link); }
      OneSlot(sys, ev, chunk);
      hide Run, Step, FutureAcks, LinkSlots, SidesInv;
      var rest;
      rest, sys' := Drain(Step(sys, ev, chunk), s, chunk);
      evs := [ev] + rest;
      RunCons(sys, ev, rest, chunk);
    }
  }

  lemma OneSlot(sys: System, ev: Event, chunk: nat)
    requires chunk > 0 && RadioWorks(ev)
    ensures Step(sys, ev, chunk).link ==
      if ev.RadioPop? then Pop(sys.link) else if ev.RadioDeliver? then Deliver(sys.link) else QueueAck(sys.link)
  {
    hide Pop, Deliver, QueueAck;
  }

  lemma DrainedAcks(sys: System, s: Side)
    requires Drained(sys.link)
    ensures Traffic(sys, s).rxAcks == FutureAcks(sys, s)
  {
  }

  // ---- one fragment ----

  /** An acknowledgement of the fragment that is being sent. */
  predicate Acknowledges(ack: Frame, mid: nat, idx: nat) {
    ack.mid == mid && ack.idx == idx
  }

  /** How many others come before the first of them. */
  function Place(fa: seq<Frame>, mid: nat, idx: nat): (p: nat)
    ensures p <= |fa|
    ensures p < |fa| ==> Acknowledges(fa[p], mid, idx)
  {
    if fa == [] || Acknowledges(fa[0], mid, idx) then 0 else 1 + Place(fa[1..], mid, idx)
  }

  lemma {:induction false} PlaceSnoc(fa: seq<Frame>, ack: Frame, mid: nat, idx: nat)
    requires Acknowledges(ack, mid, idx)
    ensures Place(fa + [ack], mid, idx) == Place(fa, mid, idx)
  {
    if fa != [] && !Acknowledges(fa[0], mid, idx) {
      PlaceSnoc(fa[1..], ack, mid, idx);
      assert (fa + [ack])[1..] == fa[1..] + [ack];
    }
  }

  /** A sender at the test of its retry loop. */
  predicate AtTest(st: Stream) {
    st.sender.Sending? && !st.sender.waiting && st.sender.idx < |st.sender.frags| && st.sender.mid in st.acked
  }

  /** What the turns of the retry loop leave alone. */
  predicate SameCall(st: Stream, st': Stream) {
    && st' == st.(sender := st'.sender, acked := st'.acked)
    && AtTest(st) && AtTest(st') && st'.sender == st.sender.(tries := st'.sender.tries)
  }

  /** One turn: the frame goes out, the radio comes to rest, and the wait takes the first acknowledgement. */
  lemma Turn(sys: System, s: Side, chunk: nat) returns (evs: seq<Event>, sys': System)
    requires chunk > 0 && SidesInv(sys.link)
    requires var st := sys.streams.Get(s); AtTest(st) && !IsAcked(st) && st.sender.tries < 40
    ensures NoDrop(evs) && sys' == Run(sys, evs, chunk) && SidesInv(sys'.link)
    ensures var st, st', fa := sys.streams.Get(s), sys'.streams.Get(s), FutureAcks(sys, s);
      && sys'.streams.Get(s.Other()) == sys.streams.Get(s.Other())
      && SameCall(st, st') && st'.sender.tries == st.sender.tries + 1 && |FutureAcks(sys', s)| == |fa|
      && if Place(fa, st.sender.mid, st.sender.idx) == 0 then IsAcked(st')
         else Place(FutureAcks(sys', s), st.sender.mid, st.sender.idx) == Place(fa, st.sender.mid, st.sender.idx) - 1
  {
    hide Run, FutureAcks, Traffic, SidesInv, Of, Fragments;
    var st := sys.streams.Get(s);
    var cur := AckFrame(DataFrame(s, st.sender.mid, st.sender.frags, st.sender.idx));
    var s1 := Step(sys, Transmit(s), chunk);
    SidesKept(sys, Transmit(s), chunk);
    TransmitFuture(sys, s, chunk);
    Transmitted(sys, s, chunk);
    var radio, s2 := Drain(s1, s, chunk);
    DrainedAcks(s2, s);
    sys' := Step(s2, AckPull(s), chunk);
    SidesKept(s2, AckPull(s), chunk);
    AckPullFuture(s2, s, chunk);
    AckPullOther(s2, s, chunk);
    PlaceSnoc(FutureAcks(sys, s), cur, st.sender.mid, st.sender.idx);
    RunSingle(s2, AckPull(s), chunk);
    hide Step, Drained;
    evs := [Transmit(s)] + (radio + [AckPull(s)]);
    NoDropAppend(radio, [AckPull(s)]);
    RunAppend(s1, radio, [AckPull(s)], chunk);
    RunCons(sys, Transmit(s), radio + [AckPull(s)], chunk);
  }

  lemma Transmitted(sys: System, s: Side, chunk: nat)
    requires chunk > 0
    requires var st := sys.streams.Get(s); AtTest(st) && !IsAcked(st) && st.sender.tries < 40
    ensures var st, sys' := sys.streams.Get(s), Step(sys, Transmit(s), chunk);
      && sys'.streams.Get(s) == st.(sender := st.sender.(tries := st.sender.tries + 1, waiting := true))
      && sys'.streams.Get(s.Other()) == sys.streams.Get(s.Other())
  {
  }

  lemma AckPullOther(sys: System, s: Side, chunk: nat)
    requires chunk > 0
    ensures Step(sys, AckPull(s), chunk).streams.Get(s.Other()) == sys.streams.Get(s.Other())
  {
    hide TakeAck, Pull;
  }

  /** With tries left for the old acknowledgements that come first, the fragment is acknowledged. */
  lemma {:induction false} FragmentAcked(sys: System, s: Side, chunk: nat) returns (evs: seq<Event>, sys': System)
    requires chunk > 0 && SidesInv(sys.link)
    requires var st := sys.streams.Get(s);
      AtTest(st) && st.sender.tries + Place(FutureAcks(sys, s), st.sender.mid, st.sender.idx) < 40
    ensures NoDrop(evs) && sys' == Run(sys, evs, chunk) && SidesInv(sys'.link)
    ensures sys'.streams.Get(s.Other()) == sys.streams.Get(s.Other())
    ensures SameCall(sys.streams.Get(s), sys'.streams.Get(s)) && IsAcked(sys'.streams.Get(s))
    ensures |FutureAcks(sys', s)| == |FutureAcks(sys, s)|
    decreases Place(FutureAcks(sys, s), sys.streams.Get(s).sender.mid, sys.streams.Get(s).sender.idx)
  {
    var st := sys.streams.Get(s);
    if IsAcked(st) {
      evs, sys' := [], sys;
    } else {
      evs, sys' := Turn(sys, s, chunk);
      hide Run, FutureAcks, SidesInv, Place;
      if Place(FutureAcks(sys, s), st.sender.mid, st.sender.idx) > 0 {
        var s1 := sys';
        var rest;
        rest, sys' := FragmentAcked(s1, s, chunk);
        RunBehind(sys, evs, s1, rest, sys', chunk);
        evs := evs + rest;
      }
    }
  }

  // ---- one message ----

  lemma Proceeded(sys: System, s: Side, chunk: nat)
    requires chunk > 0 && AtTest(sys.streams.Get(s)) && IsAcked(sys.streams.Get(s))
    ensures var st, sys' := sys.streams.Get(s), Step(sys, Proceed(s), chunk);
      && sys'.link == sys.link && sys'.streams.Get(s.Other()) == sys.streams.Get(s.Other())
      && sys'.streams.Get(s) == if st.sender.idx + 1 < |st.sender.frags|
                                then st.(sender := st.sender.(idx := st.sender.idx + 1, tries := 0))
                                else st.(sender := Idle, done := st.done + {|st.log| - 1})
    ensures FutureAcks(Step(sys, Proceed(s), chunk), s) == FutureAcks(sys, s)
  {
    OtherFuture(sys, Proceed(s), s, chunk);
    hide FutureAcks;
  }

  /** One fragment more, or the return of the call. */
  lemma FragmentDone(sys: System, s: Side, chunk: nat) returns (evs: seq<Event>, sys': System)
    requires chunk > 0 && SidesInv(sys.link) && AtTest(sys.streams.Get(s)) && sys.streams.Get(s).sender.tries == 0
    requires |FutureAcks(sys, s)| < 40
    ensures NoDrop(evs) && sys' == Run(sys, evs, chunk) && SidesInv(sys'.link)
    ensures sys'.streams.Get(s.Other()) == sys.streams.Get(s.Other())
    ensures |FutureAcks(sys', s)| == |FutureAcks(sys, s)|
    ensures var st, st' := sys.streams.Get(s), sys'.streams.Get(s);
      if st.sender.idx + 1 < |st.sender.frags|
      then AtTest(st') && st' == st.(sender := st.sender.(idx := st.sender.idx + 1), acked := st'.acked)
      else st' == st.(sender := Idle, acked := st'.acked, done := st.done + {|st.log| - 1})
  {
    var s1;
    evs, s1 := FragmentAcked(sys, s, chunk);
    Proceeded(s1, s, chunk);
    RunSingle(s1, Proceed(s), chunk);
    hide Run, FutureAcks, SidesInv, Step, IsAcked;
    sys' := Step(s1, Proceed(s), chunk);
    RunBehind(sys, evs, s1, [Proceed(s)], sys', chunk);
    evs := evs + [Proceed(s)];
  }

  /** With fewer than forty acknowledgements to come, all fragments get through and `sendall` returns. */
  lemma {:induction false} MessageAcked(sys: System, s: Side, chunk: nat) returns (evs: seq<Event>, sys': System)
    requires chunk > 0 && SidesInv(sys.link) && AtTest(sys.streams.Get(s)) && sys.streams.Get(s).sender.tries == 0
    requires |FutureAcks(sys, s)| < 40
    ensures NoDrop(evs) && sys' == Run(sys, evs, chunk) && SidesInv(sys'.link)
    ensures sys'.streams.Get(s.Other()) == sys.streams.Get(s.Other())
    ensures var st, st' := sys.streams.Get(s), sys'.streams.Get(s);
      st' == st.(sender := Idle, acked := st'.acked, done := st.done + {|st.log| - 1})
    ensures |FutureAcks(sys', s)| == |FutureAcks(sys, s)|
    decreases |sys.streams.Get(s).sender.frags| - sys.streams.Get(s).sender.idx
  {
    hide Run, FutureAcks, SidesInv, NoDrop;
    evs, sys' := FragmentDone(sys, s, chunk);
    if sys'.streams.Get(s).sender.Sending? {
      var s2 := sys';
      var rest;
      rest, sys' := MessageAcked(s2, s, chunk);
      RunBehind(sys, evs, s2, rest, sys', chunk);
      evs := evs + rest;
    }
  }

  // ---- the reader ----

  /** The reader of an open stream takes one data frame off its queue. */
  lemma ReadOne(sys: System, r: Side, chunk: nat) returns (sys': System)
    requires chunk > 0 && !sys.streams.Get(r).closed && Of(sys.link.rx.Get(r), Data) != []
    ensures sys' == Step(Step(sys, BeginRecv(r), chunk), Recv(r), chunk)
    ensures !sys'.streams.Get(r).closed && sys'.streams.Get(r.Other()) == sys.streams.Get(r.Other())
    ensures |Of(sys'.link.rx.Get(r), Data)| < |Of(sys.link.rx.Get(r), Data)|
  {
    hide Of, FirstOf, Accept;
    PullOf(sys.link.rx.Get(r), Data);
    sys' := Step(Step(sys, BeginRecv(r), chunk), Recv(r), chunk);
  }

  lemma {:induction false} ReadOut(sys: System, r: Side, chunk: nat) returns (evs: seq<Event>, sys': System)
    requires chunk > 0 && !sys.streams.Get(r).closed
    ensures NoDrop(evs) && sys' == Run(sys, evs, chunk) && Of(sys'.link.rx.Get(r), Data) == []
    ensures sys'.streams.Get(r.Other()) == sys.streams.Get(r.Other())
    decreases |Of(sys.link.rx.Get(r), Data)|
  {
    if Of(sys.link.rx.Get(r), Data) == [] {
      evs, sys' := [], sys;
    } else {
      var s1 := ReadOne(sys, r, chunk);
      var rest;
      rest, sys' := ReadOut(s1, r, chunk);
      hide Run, Step, Of;
      RunCons(Step(sys, BeginRecv(r), chunk), Recv(r), rest, chunk);
      RunCons(sys, BeginRecv(r), [Recv(r)] + rest, chunk);
      evs := [BeginRecv(r)] + ([Recv(r)] + rest);
    }
  }

  // ---- a call that gets through ----

  /** The state in which a call of `sendall` may be made, and could fail for no other reason than the link. */
  ghost predicate Callable(sys: System, s: Side, data: seq<byte>, chunk: nat)
    requires chunk > 0
  {
    && sys.streams.Get(s).sender.Idle? && !sys.streams.Get(s).closed && !sys.streams.Get(s.Other()).closed
    && |sys.streams.Get(s).log| < 0x1_0000
    && data != [] && Packable(Fragments(data, chunk))
  }

  function Called(s: Side, data: seq<byte>): seq<Event> {
    [Enter(s, data), Begin(s, data)]
  }

  /** The call was the m-th, it returned, and the other side has handed out its data. */
  ghost predicate GotThrough(sys: System, s: Side, data: seq<byte>, m: nat) {
    && m < |sys.streams.Get(s).log| && sys.streams.Get(s).log[m] == data && m in sys.streams.Get(s).done
    && exists k :: 0 <= k < |sys.streams.Get(s.Other()).receiver.returned|
                   && sys.streams.Get(s.Other()).receiver.returned[k] == (m, data)
  }

  /** What a call makes of an idle, open stream. */
  function Begun(st: Stream, data: seq<byte>, chunk: nat): Stream
    requires chunk > 0
  {
    st.(nextId := (st.nextId + 1) % ID_SPACE, acked := st.acked[st.nextId := {}], log := st.log + [data],
        sender := Sending(st.nextId, Fragments(data, chunk), 0, 0, false))
  }

  lemma BeginsAtOnce(st: Stream, data: seq<byte>, chunk: nat)
    requires chunk > 0 && st.sender.Idle? && !st.closed && data != [] && Packable(Fragments(data, chunk))
    ensures BeginSend(EnterSend(st, data), data, chunk) == Begun(st, data, chunk)
  {
    hide Fragments, Packable;
    assert st.calling + multiset{data} - multiset{data} == st.calling;
  }

  lemma CallLink(sys: System, ev: Event, s: Side, chunk: nat)
    requires chunk > 0 && (ev.Enter? || ev.Begin?) && ev.s == s
    ensures Step(sys, ev, chunk).link == sys.link
    ensures Step(sys, ev, chunk).streams.Get(s.Other()) == sys.streams.Get(s.Other())
  {
    hide BeginSend, EnterSend;
  }

  lemma CalledState(sys: System, s: Side, data: seq<byte>, chunk: nat)
    requires chunk > 0 && Callable(sys, s, data, chunk)
    ensures var sys' := Run(sys, Called(s, data), chunk);
      && sys'.link == sys.link && sys'.streams.Get(s.Other()) == sys.streams.Get(s.Other())
      && sys'.streams.Get(s) == Begun(sys.streams.Get(s), data, chunk)
      && FutureAcks(sys', s) == FutureAcks(sys, s)
  {
    var enter, begin := Enter(s, data), Begin(s, data);
    var s1 := Step(sys, enter, chunk);
    RunSteps(sys, enter, begin, begin, chunk);
    OtherFuture(sys, enter, s, chunk);
    OtherFuture(s1, begin, s, chunk);
    hide Run, Step, FutureAcks, Fragments, Packable, EnterSend, BeginSend, Begun;
    CallLink(sys, enter, s, chunk);
    CallLink(s1, begin, s, chunk);
    CallStep(sys, enter, s, chunk);
    CallStep(s1, begin, s, chunk);
    BeginsAtOnce(sys.streams.Get(s), data, chunk);
  }

  /** What is done and read out has got through. */
  lemma ReadIsThrough(evs: seq<Event>, s: Side, data: seq<byte>, m: nat, chunk: nat)
    requires chunk > 0
    requires var sys := Run(INIT, evs, chunk);
      && |sys.streams.Get(s).log| <= ID_SPACE && Of(sys.link.rx.Get(s.Other()), Data) == []
      && m < |sys.streams.Get(s).log| && sys.streams.Get(s).log[m] == data && m in sys.streams.Get(s).done
    ensures GotThrough(Run(INIT, evs, chunk), s, data, m)
  {
    ExactlyOnceInOrder(evs, s, chunk);
    hide Run, Of;
    var got := Run(INIT, evs, chunk).streams.Get(s.Other()).receiver.returned;
    assert Returned(got, m);
    var k :| 0 <= k < |got| && got[k].0 == m;
    assert got[k] == (m, data);
  }

  /** With fewer than forty acknowledgements still to come a call of any side gets through, also when the other side
      sends nothing, and whatever else is on its way. */
  lemma GetsThrough(before: seq<Event>, s: Side, data: seq<byte>, chunk: nat) returns (evs: seq<Event>)
    requires chunk > 0
    requires var sys := Run(INIT, before, chunk); Callable(sys, s, data, chunk) && |FutureAcks(sys, s)| < 40
    ensures NoDrop(evs)
    ensures var sys := Run(INIT, before, chunk);
      GotThrough(Run(Run(sys, Called(s, data), chunk), evs, chunk), s, data, |sys.streams.Get(s).log|)
  {
    var sys := Run(INIT, before, chunk);
    var m := |sys.streams.Get(s).log|;
    RunInvariant(before, s, chunk);
    CalledState(sys, s, data, chunk);
    var s1 := Run(sys, Called(s, data), chunk);
    hide Run, FutureAcks, SidesInv, Fragments, Packable, Called, GotThrough, Of;
    var send, s2 := MessageAcked(s1, s, chunk);
    var read, s3 := ReadOut(s2, s.Other(), chunk);
    RunBehind(s1, send, s2, read, s3, chunk);
    evs := send + read;
    RunAppend(INIT, before, Called(s, data), chunk);
    RunAppend(INIT, before + Called(s, data), evs, chunk);
    assert s.Other().Other() == s;
    ReadIsThrough(before + Called(s, data) + evs, s, data, m, chunk);
  }
}
