/** The 16-bit message id of harness/lora.py and the `_seen` set that is never cleared: what holds of a stream however
    long it lives, and the run that shows why in-order delivery stops at 65536 messages. */
module LoRaWrap {
  import opened Prelude
  import opened LoRaFrame
  import opened LoRaReceiver
  import opened LoRaProtocol

  // ---- a message id is returned at most once, in every run ----

  ghost predicate IdsBelow(q: seq<Frame>) {
    forall k :: 0 <= k < |q| ==> q[k].mid < ID_SPACE
  }

  ghost predicate StreamIds(st: Stream) {
    && st.nextId < ID_SPACE
    && (st.sender.Sending? ==> st.sender.mid < ID_SPACE)
    && (forall k :: 0 <= k < |st.receiver.returned| ==>
          st.receiver.returned[k].0 < ID_SPACE && st.receiver.returned[k].0 in st.receiver.seen)
    && (forall j, k :: 0 <= j < k < |st.receiver.returned| ==>
          st.receiver.returned[j].0 != st.receiver.returned[k].0)
  }

  ghost predicate LinkIds(l: Link) {
    && IdsBelow(l.tx.a) && IdsBelow(l.tx.b) && IdsBelow(l.rx.a) && IdsBelow(l.rx.b)
    && (!l.radio.Listening? ==> l.radio.frame.mid < ID_SPACE)
  }

  ghost predicate IdsInv(sys: System) {
    LinkIds(sys.link) && StreamIds(sys.streams.a) && StreamIds(sys.streams.b)
  }

  lemma PullIds(l: Link, s: Side, k: Kind)
    requires LinkIds(l)
    ensures LinkIds(Pull(l, s, k).1)
    ensures Pull(l, s, k).0.Some? ==> Pull(l, s, k).0.value.mid < ID_SPACE
  {
  }

  lemma RadioIds(l: Link)
    requires LinkIds(l)
    ensures LinkIds(Pop(l)) && LinkIds(Drop(l)) && LinkIds(Deliver(l)) && LinkIds(QueueAck(l))
  {
  }

  lemma TakeDataIds(st: Stream, f: Frame)
    requires StreamIds(st) && f.mid < ID_SPACE
    ensures StreamIds(TakeData(st, f))
  {
    AcceptIds(st.receiver, f);
    hide Accept;
  }

  lemma AcceptIds(r: Receiver, f: Frame)
    ensures Accept(r, f).seen >= r.seen
    ensures Accept(r, f).returned == r.returned
      || (exists data :: Accept(r, f).returned == r.returned + [(f.mid, data)]
            && f.mid !in r.seen && f.mid in Accept(r, f).seen)
  {
    hide Join, MaxTotal;
    var msg := FileFrame(r.rbuf, f).1;
    if msg.Some? && msg.value.0 !in r.seen {
      assert Accept(r, f).returned == r.returned + [(f.mid, msg.value.1)];
    }
  }

  lemma BeginIds(st: Stream, data: seq<byte>, chunk: nat)
    requires chunk > 0 && StreamIds(st)
    ensures StreamIds(BeginSend(st, data, chunk))
  {
    var st' := BeginSend(st, data, chunk);
    assert st'.receiver == st.receiver;
    assert st'.nextId < ID_SPACE;
  }

  /** The receiver's share and the sender's. */
  lemma SenderOnly(st: Stream, st': Stream)
    requires StreamIds(st) && st'.receiver == st.receiver && st'.nextId == st.nextId
    requires st'.sender.Sending? ==> st.sender.Sending? && st'.sender.mid == st.sender.mid
    ensures StreamIds(st')
  {
  }

  lemma SenderIds(st: Stream, ack: Option<Frame>)
    requires StreamIds(st)
    ensures StreamIds(TakeAck(st, ack)) && StreamIds(Advance(st))
    ensures CanTransmit(st) ==> StreamIds(AfterTransmit(st))
  {
    hide StreamIds, IsAcked;
    SenderOnly(st, TakeAck(st, ack));
    SenderOnly(st, Advance(st));
    if CanTransmit(st) { SenderOnly(st, AfterTransmit(st)); }
  }

  lemma SendIds(l: Link, s: Side, f: Frame)
    requires LinkIds(l) && f.mid < ID_SPACE
    ensures LinkIds(SendFrame(l, s, f))
  {
  }

  lemma FlagIds(st: Stream, closed: bool, receiving: bool, calling: multiset<seq<byte>>)
    requires StreamIds(st)
    ensures StreamIds(st.(closed := closed, receiving := receiving, calling := calling))
  {
  }

  lemma SenderMid(st: Stream)
    requires StreamIds(st) && CanTransmit(st)
    ensures st.sender.Sending? && st.sender.mid < ID_SPACE
  {
  }

  lemma IdsKept(sys: System, ev: Event, chunk: nat)
    requires chunk > 0 && IdsInv(sys)
    ensures IdsInv(Step(sys, ev, chunk))
  {
    hide LinkIds, StreamIds, BeginSend, TakeAck, Advance, TakeData, AfterTransmit, SendFrame,
      Pull, Pop, Drop, Deliver, QueueAck;
    if ev.RadioPop? || ev.RadioDrop? || ev.RadioDeliver? || ev.RadioAck? {
      RadioIds(sys.link);
    } else {
      var st, l := sys.streams.Get(ev.s), sys.link;
      var ack := if ev.AckPull? then Pull(l, ev.s, Ack).0 else None;
      SenderIds(st, ack);
      if ev.Enter? { FlagIds(st, st.closed, st.receiving, EnterSend(st, ev.data).calling); }
      if ev.Close? { FlagIds(st, true, st.receiving, st.calling); }
      if ev.BeginRecv? || ev.RecvTimeout? { FlagIds(st, st.closed, ev.BeginRecv?, st.calling); }
      if ev.Begin? { BeginIds(st, ev.data, chunk); }
      if ev.AckPull? || ev.Recv? {
        PullIds(l, ev.s, if ev.AckPull? then Ack else Data);
      }
      var f := Pull(l, ev.s, Data).0;
      if ev.Recv? && f.Some? { TakeDataIds(st, f.value); }
      if ev.Transmit? && CanTransmit(st) {
        SenderMid(st);
        SendIds(l, ev.s, DataFrame(ev.s, st.sender.mid, st.sender.frags, st.sender.idx));
      }
    }
  }

  lemma {:induction false} IdsInRun(evs: seq<Event>, chunk: nat)
    requires chunk > 0
    ensures IdsInv(Run(INIT, evs, chunk))
  {
    if evs != [] {
      IdsInRun(evs[..|evs| - 1], chunk);
      IdsKept(Run(INIT, evs[..|evs| - 1], chunk), evs[|evs| - 1], chunk);
    }
  }

  ghost function IdsOf(returned: seq<(nat, seq<byte>)>): set<nat> {
    set k | 0 <= k < |returned| :: returned[k].0
  }

  lemma {:induction false} CountDistinct(returned: seq<(nat, seq<byte>)>)
    requires forall j, k :: 0 <= j < k < |returned| ==> returned[j].0 != returned[k].0
    ensures |IdsOf(returned)| == |returned|
  {
    if returned != [] {
      var init, last := returned[..|returned| - 1], returned[|returned| - 1].0;
      CountDistinct(init);
      assert IdsOf(returned) == IdsOf(init) + {last};
    }
  }

  /** Whatever is sent, over any number of messages, `recv` never returns one message id twice, so a
      stream hands its application at most 65536 messages in its whole life. */
  lemma AtMostOncePerId(evs: seq<Event>, s: Side, chunk: nat)
    requires chunk > 0
    ensures var got := Run(INIT, evs, chunk).streams.Get(s).receiver.returned;
            && (forall j, k :: 0 <= j < k < |got| ==> got[j].0 != got[k].0)
            && |got| <= 65536
  {
    IdsInRun(evs, chunk);
    var got := Run(INIT, evs, chunk).streams.Get(s).receiver.returned;
    CountDistinct(got);
    CountBelow(IdsOf(got), ID_SPACE);
  }

  // ---- the 65537th message ----

  const PING: seq<byte> := [0]

  const OUT: seq<Event> := [Enter(A, PING), Begin(A, PING), Transmit(A), RadioPop, RadioDeliver, RadioAck]

  /** The ack comes back, and the other side calls `recv`. */
  const BACK: seq<Event> := [RadioPop, RadioDeliver, AckPull(A), Proceed(A), BeginRecv(B), Recv(B)]

  /** Nothing is in flight and nobody is busy. */
  ghost predicate Quiet(sys: System) {
    && sys.link == INIT.link
    && sys.streams.a.sender.Idle? && !sys.streams.a.closed
    && sys.streams.b.receiver.rbuf == map[] && !sys.streams.b.closed
  }

  /** A whole one-fragment message arriving at an empty reassembly buffer. */
  lemma AcceptPing(r: Receiver, f: Frame)
    requires r.rbuf == map[] && f.idx == 0 && f.total == 1
    ensures Accept(r, f).rbuf == map[]
    ensures Accept(r, f).seen == r.seen + {f.mid}
    ensures f.mid in r.seen ==> Accept(r, f).returned == r.returned
    ensures f.mid !in r.seen ==> |Accept(r, f).returned| == |r.returned| + 1
  {
    var parts: Parts := map[][f.idx := f];
    assert parts.Keys == {0};
    assert |parts| == |parts.Keys| == 1;
    assert MaxTotal(parts) == 1;
    assert parts - {0} == map[];
  }

  /** The state after one message that met no loss. */
  ghost predicate Pinged(sys: System, sys': System) {
    && Quiet(sys')
    && sys'.streams.a.log == sys.streams.a.log + [PING]
    && sys'.streams.a.nextId == (sys.streams.a.nextId + 1) % ID_SPACE
    && sys'.streams.a.done == sys.streams.a.done + {|sys.streams.a.log|}
    && sys'.streams.b.receiver == Accept(sys.streams.b.receiver, DataFrame(A, sys.streams.a.nextId, [PING], 0))
  }

  lemma RunPrefix(sys: System, evs: seq<Event>, k: nat, chunk: nat)
    requires chunk > 0 && k < |evs|
    ensures Run(sys, evs[..k + 1], chunk) == Step(Run(sys, evs[..k], chunk), evs[k], chunk)
  {
    assert evs[..k + 1][..k] == evs[..k];
  }

  /** The five states after the five events. */
  lemma RunFive(sys: System, evs: seq<Event>, chunk: nat)
    requires chunk > 0 && |evs| == 5
    ensures Run(sys, evs, chunk) ==
            Step(Step(Step(Step(Step(sys, evs[0], chunk), evs[1], chunk), evs[2], chunk), evs[3], chunk), evs[4], chunk)
  {
    assert evs[..0] == [];
    RunPrefix(sys, evs, 0, chunk);
    var s1 := Run(sys, evs[..1], chunk);
    RunPrefix(sys, evs, 1, chunk);
    var s2 := Run(sys, evs[..2], chunk);
    RunPrefix(sys, evs, 2, chunk);
    var s3 := Run(sys, evs[..3], chunk);
    RunPrefix(sys, evs, 3, chunk);
    RunPrefix(sys, evs, 4, chunk);
    assert evs[..5] == evs;
  }

  /** The call passes its test and takes the lock and an id. */
  lemma PingTaken(sys: System, chunk: nat)
    requires chunk > 0 && Quiet(sys)
    ensures var a := sys.streams.a;
            Step(Step(sys, Enter(A, PING), chunk), Begin(A, PING), chunk) ==
            sys.(streams := sys.streams.(a := a.(nextId := (a.nextId + 1) % ID_SPACE, acked := a.acked[a.nextId := {}],
                                                 log := a.log + [PING],
                                                 sender := Sending(a.nextId, [PING], 0, 0, false))))
  {
    assert Fragments(PING, chunk) == [PING];
    assert sys.streams.a.calling + multiset{PING} - multiset{PING} == sys.streams.a.calling;
  }

  /** The frame goes out, arrives, and its ack is queued. */
  lemma PingOut(sys: System, chunk: nat) returns (sys': System)
    requires chunk > 0 && Quiet(sys)
    ensures sys' == Run(sys, OUT, chunk)
    ensures var f := DataFrame(A, sys.streams.a.nextId, [PING], 0);
            && sys'.link == Link(Duo([], [AckFrame(f)]), Duo([], [f]), Listening, B)
            && sys'.streams.b == sys.streams.b
            && sys'.streams.a == sys.streams.a.(nextId := (sys.streams.a.nextId + 1) % ID_SPACE,
                                                acked := sys.streams.a.acked[sys.streams.a.nextId := {}],
                                                log := sys.streams.a.log + [PING],
                                                sender := Sending(sys.streams.a.nextId, [PING], 0, 1, true))
  {
    var f := DataFrame(A, sys.streams.a.nextId, [PING], 0);
    PingTaken(sys, chunk);
    hide Fragments, EnterSend, BeginSend;
    var s1 := Step(Step(sys, OUT[0], chunk), OUT[1], chunk);
    var s2 := Step(s1, OUT[2], chunk);
    assert s2.link.tx.a == [f];
    var s3 := Step(s2, OUT[3], chunk);
    assert s3.link.tx.a == [] && s3.link.radio == InAir(f);
    var s4 := Step(s3, OUT[4], chunk);
    assert s4.link.rx.b == [f];
    sys' := Step(s4, OUT[5], chunk);
    assert sys'.link.tx.b == [AckFrame(f)];
    hide Step;
    RunFive(sys, OUT[..5], chunk);
    RunPrefix(sys, OUT, 5, chunk);
    assert OUT[..6] == OUT;
  }

  /** One message is on its way back as an ack, and waits at the reader. */
  ghost predicate AckUnderway(sys: System, f: Frame) {
    && sys.link == Link(Duo([], [AckFrame(f)]), Duo([], [f]), Listening, B)
    && sys.streams.a.sender == Sending(f.mid, [PING], 0, 1, true) && sys.streams.a.log != []
    && f.mid in sys.streams.a.acked && f == DataFrame(A, f.mid, [PING], 0) && !sys.streams.a.closed
  }

  /** The ack comes back and `sendall` returns. */
  lemma AckBack(sys: System, f: Frame, chunk: nat) returns (sys': System)
    requires chunk > 0 && AckUnderway(sys, f)
    ensures sys' ==
            Step(Step(Step(Step(sys, RadioPop, chunk), RadioDeliver, chunk), AckPull(A), chunk), Proceed(A), chunk)
    ensures sys'.link == Link(Duo([], []), Duo([], [f]), Listening, A) && sys'.streams.b == sys.streams.b
    ensures var a, a' := sys.streams.a, sys'.streams.a;
            && a'.sender.Idle? && !a'.closed && a'.log == a.log && a'.nextId == a.nextId
            && a'.done == a.done + {|a.log| - 1}
  {
    hide AckFrame;
    var s1 := Step(sys, RadioPop, chunk);
    assert s1.link.tx.b == [] && s1.link.radio == InAir(AckFrame(f));
    var s2 := PingAckArrives(s1, f, chunk);
    var s3 := Step(s2, AckPull(A), chunk);
    assert s3.link.rx.a == [] && IsAcked(s3.streams.a);
    sys' := Step(s3, Proceed(A), chunk);
  }

  lemma PingAckArrives(sys: System, f: Frame, chunk: nat) returns (sys': System)
    requires chunk > 0 && sys.link == Link(Duo([], []), Duo([], [f]), InAir(AckFrame(f)), A) && f.side == A
    ensures sys' == Step(sys, RadioDeliver, chunk) && sys'.streams == sys.streams
    ensures sys'.link == Link(Duo([], []), Duo([AckFrame(f)], [f]), Listening, A)
    ensures AckFrame(f).kind.Ack? && AckFrame(f).mid == f.mid && AckFrame(f).idx == f.idx
  {
    sys' := Step(sys, RadioDeliver, chunk);
    assert [] + [AckFrame(f)] == [AckFrame(f)];
  }

  /** The reader takes the frame. */
  lemma ReadPing(sys: System, f: Frame, chunk: nat) returns (sys': System)
    requires chunk > 0 && sys.link == Link(Duo([], []), Duo([], [f]), Listening, A)
      && f == DataFrame(A, f.mid, [PING], 0)
    requires !sys.streams.b.closed && sys.streams.b.receiver.rbuf == map[]
    ensures sys' == Step(Step(sys, BeginRecv(B), chunk), Recv(B), chunk)
    ensures sys'.link == INIT.link && sys'.streams.a == sys.streams.a && !sys'.streams.b.closed
    ensures sys'.streams.b.receiver == Accept(sys.streams.b.receiver, f) && sys'.streams.b.receiver.rbuf == map[]
  {
    hide Accept;
    AcceptPing(sys.streams.b.receiver, f);
    var s1 := Step(sys, BeginRecv(B), chunk);
    sys' := Step(s1, Recv(B), chunk);
    assert [f][..0] + [f][1..] == [];
  }

  lemma PingBack(sys: System, f: Frame, chunk: nat) returns (sys': System)
    requires chunk > 0 && AckUnderway(sys, f)
    requires !sys.streams.b.closed && sys.streams.b.receiver.rbuf == map[]
    ensures sys' == Run(sys, BACK, chunk) && Quiet(sys')
    ensures && sys'.streams.a.log == sys.streams.a.log && sys'.streams.a.nextId == sys.streams.a.nextId
            && sys'.streams.a.done == sys.streams.a.done + {|sys.streams.a.log| - 1}
            && sys'.streams.b.receiver == Accept(sys.streams.b.receiver, f)
  {
    hide Step, Accept, DataFrame, AckFrame;
    var s4 := AckBack(sys, f, chunk);
    sys' := ReadPing(s4, f, chunk);
    RunFive(sys, BACK[..5], chunk);
    RunPrefix(sys, BACK, 5, chunk);
    assert BACK[..6] == BACK;
  }

  lemma PingRoundTrip(sys: System, out: seq<Event>, back: seq<Event>, chunk: nat)
    requires chunk > 0 && Quiet(sys)
    requires out == OUT
    requires back == BACK
    ensures Pinged(sys, Run(Run(sys, out, chunk), back, chunk))
  {
    var mid := PingOut(sys, chunk);
    var sys' := PingBack(mid, DataFrame(A, sys.streams.a.nextId, [PING], 0), chunk);
  }

  lemma PingOnce(evs: seq<Event>, chunk: nat) returns (more: seq<Event>)
    requires chunk > 0 && Quiet(Run(INIT, evs, chunk))
    ensures Pinged(Run(INIT, evs, chunk), Run(INIT, more, chunk))
  {
    var out := OUT;
    var back := BACK;
    more := evs + out + back;
    var sys := Run(INIT, evs, chunk);
    PingRoundTrip(sys, out, back, chunk);
    RunAppend(INIT, evs, out, chunk);
    RunAppend(INIT, evs + out, back, chunk);
  }

  ghost predicate AllBelow(s: set<int>, n: nat) {
    forall i :: i in s <==> 0 <= i < n
  }

  ghost predicate AllIdsBelow(s: set<nat>, n: nat) {
    forall i: nat :: i in s <==> i < n
  }

  /** The two ends after n messages, none of which met any loss. */
  ghost predicate SenderPinged(a: Stream, n: nat) {
    |a.log| == n && a.nextId == n % ID_SPACE && AllBelow(a.done, n)
  }

  ghost predicate ReceiverPinged(r: Receiver, n: nat) {
    AllIdsBelow(r.seen, Min(n, ID_SPACE)) && |r.returned| == Min(n, ID_SPACE)
  }

  lemma SeenStep(seen: set<nat>, id: nat, n: nat)
    requires AllIdsBelow(seen, Min(n, ID_SPACE)) && id == n % ID_SPACE
    ensures id in seen <==> n >= ID_SPACE
    ensures AllIdsBelow(seen + {id}, Min(n + 1, ID_SPACE))
  {
    if n < ID_SPACE {
      assert id == n;
    }
  }

  lemma NextId(n: nat)
    ensures (n % ID_SPACE + 1) % ID_SPACE == (n + 1) % ID_SPACE
  {
  }

  lemma PingedReceiver(r: Receiver, id: nat, n: nat)
    requires id == n % ID_SPACE && r.rbuf == map[] && ReceiverPinged(r, n)
    ensures ReceiverPinged(Accept(r, DataFrame(A, id, [PING], 0)), n + 1)
  {
    SeenStep(r.seen, id, n);
    AcceptPing(r, DataFrame(A, id, [PING], 0));
  }

  lemma PingedSender(a: Stream, a': Stream, n: nat)
    requires SenderPinged(a, n)
    requires |a'.log| == n + 1 && a'.nextId == (a.nextId + 1) % ID_SPACE && a'.done == a.done + {n}
    ensures SenderPinged(a', n + 1)
  {
    NextId(n);
  }

  lemma PingAgain(before: seq<Event>, n: nat, chunk: nat) returns (evs: seq<Event>)
    requires chunk > 0
    requires var sys := Run(INIT, before, chunk);
             Quiet(sys) && SenderPinged(sys.streams.a, n) && ReceiverPinged(sys.streams.b.receiver, n)
    ensures var sys := Run(INIT, evs, chunk);
            Quiet(sys) && SenderPinged(sys.streams.a, n + 1) && ReceiverPinged(sys.streams.b.receiver, n + 1)
  {
    hide Run, ReceiverPinged, Accept;
    evs := PingOnce(before, chunk);
    var sys, sys' := Run(INIT, before, chunk), Run(INIT, evs, chunk);
    PingedSender(sys.streams.a, sys'.streams.a, n);
    PingedReceiver(sys.streams.b.receiver, sys.streams.a.nextId, n);
  }

  lemma {:induction false} PingMany(n: nat, chunk: nat) returns (evs: seq<Event>)
    requires chunk > 0
    ensures var sys := Run(INIT, evs, chunk);
            Quiet(sys) && SenderPinged(sys.streams.a, n) && ReceiverPinged(sys.streams.b.receiver, n)
  {
    if n == 0 {
      evs := [];
      assert Run(INIT, evs, chunk) == INIT;
    } else {
      var before := PingMany(n - 1, chunk);
      evs := PingAgain(before, n - 1, chunk);
    }
  }

  /** The bound of 65536 messages is tight: in this run 65537 calls of `sendall` return, no frame is lost and the
      reader has drained its queue, yet one message never came out of `recv`. */
  lemma IdSpaceExhausted(chunk: nat) returns (evs: seq<Event>)
    requires chunk > 0
    ensures var sys := Run(INIT, evs, chunk);
            && (forall i :: i in sys.streams.a.done <==> 0 <= i < 65537)
            && Of(sys.link.rx.b, Data) == []
            && |sys.streams.b.receiver.returned| == 65536
  {
    evs := PingMany(ID_SPACE + 1, chunk);
  }
}
