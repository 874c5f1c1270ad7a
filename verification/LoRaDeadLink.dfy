/** When the ARQ of harness/lora.py gets nothing done although no frame is lost: forty old acknowledgements are still to
    come. With that, exactly when a message gets through. */
module LoRaDeadLink {
  import opened Prelude
  import opened LoRaFrame
  import opened LoRaReceiver
  import opened LoRaProtocol
  import opened LoRaDelivery
  import opened LoRaProgress

  // ---- a call that cannot get through ----

  /** How many acknowledgements come before the first of the message. */
  function Lead(fa: seq<Frame>, mid: nat): (n: nat)
    ensures n <= |fa| && (n < |fa| ==> fa[n].mid == mid)
    ensures forall i :: 0 <= i < n ==> fa[i].mid != mid
  {
    if fa == [] || fa[0].mid == mid then 0 else 1 + Lead(fa[1..], mid)
  }

  lemma {:induction false} LeadSnoc(fa: seq<Frame>, ack: Frame, mid: nat)
    requires ack.mid == mid
    ensures Lead(fa + [ack], mid) == Lead(fa, mid)
  {
    if fa != [] && fa[0].mid != mid {
      LeadSnoc(fa[1..], ack, mid);
      assert (fa + [ack])[1..] == fa[1..] + [ack];
    }
  }

  /** A call whose first fragment will not be acknowledged within its forty waits: too many others come first. */
  ghost predicate Hopeless(st: Stream, fa: seq<Frame>) {
    && st.sender.Sending? && st.sender.idx == 0 && st.sender.tries <= 40 && (st.sender.waiting ==> st.sender.tries >= 1)
    && st.sender.mid in st.acked && 0 !in st.acked[st.sender.mid]
    && Lead(fa, st.sender.mid) + st.sender.tries >= 40 + if st.sender.waiting then 1 else 0
  }

  /** The call goes on in vain, or has raised. */
  ghost predicate InVain(st: Stream, st': Stream, fa': seq<Frame>) {
    st'.log == st.log && st'.done == st.done && (st'.sender.Idle? || Hopeless(st', fa'))
  }

  lemma HopelessTry(st: Stream, fa: seq<Frame>, ack: Frame)
    requires Hopeless(st, fa) && CanTransmit(st) && ack.mid == st.sender.mid
    ensures InVain(st, AfterTransmit(st), fa + [ack])
  {
    LeadSnoc(fa, ack, st.sender.mid);
    hide Lead;
  }

  lemma HopelessTransmit(sys: System, s: Side, chunk: nat)
    requires chunk > 0 && Hopeless(sys.streams.Get(s), FutureAcks(sys, s))
    ensures var sys' := Step(sys, Transmit(s), chunk);
      InVain(sys.streams.Get(s), sys'.streams.Get(s), FutureAcks(sys', s))
  {
    var st, sys' := sys.streams.Get(s), Step(sys, Transmit(s), chunk);
    if CanTransmit(st) {
      TransmitFuture(sys, s, chunk);
      assert sys'.streams.Get(s) == AfterTransmit(st);
      hide FutureAcks, Step, Hopeless, InVain, AfterTransmit;
      var ack := AckFrame(DataFrame(s, st.sender.mid, st.sender.frags, st.sender.idx));
      HopelessTry(st, FutureAcks(sys, s), ack);
    } else {
      assert sys' == sys;
    }
  }

  lemma HopelessPull(sys: System, s: Side, chunk: nat)
    requires chunk > 0 && Hopeless(sys.streams.Get(s), FutureAcks(sys, s))
    ensures var sys' := Step(sys, AckPull(s), chunk);
      InVain(sys.streams.Get(s), sys'.streams.Get(s), FutureAcks(sys', s))
  {
    var st, sys' := sys.streams.Get(s), Step(sys, AckPull(s), chunk);
    if st.sender.waiting {
      AckPullFuture(sys, s, chunk);
      hide FutureAcks, Step, Traffic;
    } else {
      assert sys' == sys;
    }
  }

  /** The other steps leave a sender that waits in vain where it is, but for the end of a wait. */
  lemma SenderStays(sys: System, ev: Event, s: Side, chunk: nat)
    requires chunk > 0 && sys.streams.Get(s).sender.Sending? && !IsAcked(sys.streams.Get(s))
    requires (ev.Transmit? || ev.AckPull?) ==> ev.s == s.Other()
    ensures var st, st' := sys.streams.Get(s), Step(sys, ev, chunk).streams.Get(s);
      && st'.log == st.log && st'.done == st.done && st'.acked == st.acked
      && (st'.sender == st.sender || st'.sender == st.sender.(waiting := false))
  {
    hide Pull, Pop, Drop, Deliver, QueueAck, SendFrame, Accept, IsAcked, Left, AfterTransmit, CanTransmit;
  }

  lemma HopelessStays(st: Stream, st': Stream, fa: seq<Frame>)
    requires Hopeless(st, fa) && st'.log == st.log && st'.done == st.done && st'.acked == st.acked
    requires st'.sender == st.sender || st'.sender == st.sender.(waiting := false)
    ensures InVain(st, st', fa)
  {
    hide Lead;
  }

  lemma HopelessOther(sys: System, ev: Event, s: Side, chunk: nat)
    requires chunk > 0 && SidesInv(sys.link) && Hopeless(sys.streams.Get(s), FutureAcks(sys, s))
    requires !ev.RadioDrop? && ((ev.Transmit? || ev.AckPull?) ==> ev.s == s.Other())
    ensures var sys' := Step(sys, ev, chunk);
      InVain(sys.streams.Get(s), sys'.streams.Get(s), FutureAcks(sys', s))
  {
    hide FutureAcks, Lead, Step, InVain;
    SenderStays(sys, ev, s, chunk);
    HopelessStays(sys.streams.Get(s), Step(sys, ev, chunk).streams.Get(s), FutureAcks(sys, s));
    if RadioWorks(ev) {
      RadioFuture(sys, ev, s, chunk);
    } else {
      OtherFuture(sys, ev, s, chunk);
    }
  }

  lemma HopelessStep(sys: System, ev: Event, s: Side, chunk: nat)
    requires chunk > 0 && SidesInv(sys.link) && Hopeless(sys.streams.Get(s), FutureAcks(sys, s)) && !ev.RadioDrop?
    ensures var sys' := Step(sys, ev, chunk);
      InVain(sys.streams.Get(s), sys'.streams.Get(s), FutureAcks(sys', s))
  {
    hide Hopeless, InVain, Step, FutureAcks;
    if ev.Transmit? && ev.s == s {
      HopelessTransmit(sys, s, chunk);
    } else if ev.AckPull? && ev.s == s {
      HopelessPull(sys, s, chunk);
    } else {
      if ev.Transmit? || ev.AckPull? { assert ev.s == s.Other(); }
      HopelessOther(sys, ev, s, chunk);
    }
  }

  ghost predicate IdsBelow(q: seq<Frame>, n: nat) {
    forall i :: 0 <= i < |q| ==> q[i].mid < n
  }

  lemma FutureOfBelow(d: Direction, radio: Radio, n: nat)
    requires IdsBelow(d.rxAcks, n) && IdsBelow(d.airAcks, n) && IdsBelow(d.txAcks, n) && IdsBelow(d.underway, n)
    ensures IdsBelow(Future(d, radio), n)
  {
    assert IdsBelow(AcksOf(d.underway), n);
    hide AcksOf;
    var a := if radio.InAir? then d.airAcks else [];
    var o := if radio.OweAck? then d.airAcks else [];
    BelowAppend(d.rxAcks, a, n);
    BelowAppend(d.rxAcks + a, d.txAcks, n);
    BelowAppend(d.rxAcks + a + d.txAcks, o, n);
    BelowAppend(d.rxAcks + a + d.txAcks + o, AcksOf(d.underway), n);
  }

  lemma BelowAppend(p: seq<Frame>, q: seq<Frame>, n: nat)
    requires IdsBelow(p, n) && IdsBelow(q, n)
    ensures IdsBelow(p + q, n)
  {
  }

  /** All acknowledgements to come are of messages that have an id. */
  lemma FutureBelow(sys: System, s: Side, chunk: nat)
    requires chunk > 0 && DirectionInv(Traffic(sys, s), chunk)
    ensures IdsBelow(FutureAcks(sys, s), |sys.streams.Get(s).log|)
  {
    var d, n := Traffic(sys, s), |sys.streams.Get(s).log|;
    assert d.st == sys.streams.Get(s);
    hide Traffic, Future, LogInv, SendingInv;
    BackedBelow(d, d.rxAcks, chunk);
    BackedBelow(d, d.airAcks, chunk);
    BackedBelow(d, d.txAcks, chunk);
    UnderwayBelow(d, chunk);
    FutureOfBelow(d, sys.link.radio, n);
  }

  lemma UnderwayBelow(d: Direction, chunk: nat)
    requires chunk > 0 && LineInv(d.Line(), d.st.log, chunk)
    ensures IdsBelow(d.underway, |d.st.log|)
  {
    forall i | 0 <= i < |d.underway|
      ensures d.underway[i].mid < |d.st.log|
    {
      assert d.Line()[|d.arrived| + i] == d.underway[i];
    }
  }

  lemma BackedBelow(d: Direction, q: seq<Frame>, chunk: nat)
    requires chunk > 0 && LineInv(d.Line(), d.st.log, chunk) && Backed(q, d.arrived)
    ensures IdsBelow(q, |d.st.log|)
  {
    forall i | 0 <= i < |q|
      ensures q[i].mid < |d.st.log|
    {
      assert Has(d.arrived, q[i].mid, q[i].idx);
      var k :| 0 <= k < |d.arrived| && d.arrived[k].mid == q[i].mid && d.arrived[k].idx == q[i].idx;
      assert d.Line()[k] == d.arrived[k];
    }
  }

  /** The m-th call is over without success, or waits in vain. */
  ghost predicate Lost(sys: System, s: Side, m: nat) {
    var st := sys.streams.Get(s);
    && SidesInv(sys.link) && m < |st.log| && m !in st.done
    && (|st.log| == m + 1 ==> st.sender.Idle? || Hopeless(st, FutureAcks(sys, s)))
  }

  /** Only the return of a call that is being sent adds to those done, and that is the last one in the log. */
  lemma DoneGrows(sys: System, ev: Event, s: Side, chunk: nat)
    requires chunk > 0
    ensures Later(sys.streams.Get(s), Step(sys, ev, chunk).streams.Get(s))
  {
    hide Later, Step;
    if ev.RadioPop? || ev.RadioDrop? || ev.RadioDeliver? || ev.RadioAck? || ev.s != s {
      StreamUntouched(sys, ev, s, chunk);
      NothingLater(sys.streams.Get(s));
    } else {
      OwnStepLater(sys, ev, s, chunk);
    }
  }

  lemma StreamUntouched(sys: System, ev: Event, s: Side, chunk: nat)
    requires chunk > 0
    requires ev.RadioPop? || ev.RadioDrop? || ev.RadioDeliver? || ev.RadioAck? || ev.s != s
    ensures Step(sys, ev, chunk).streams.Get(s) == sys.streams.Get(s)
  {
    hide Pull, Pop, Drop, Deliver, QueueAck, SendFrame, TakeData, EnterSend, BeginSend, Advance, TakeAck, AfterTransmit,
      CanTransmit;
  }

  lemma NothingLater(st: Stream)
    ensures Later(st, st)
  {
  }

  lemma FlagsLater(st: Stream, st': Stream)
    requires st'.log == st.log && st'.done == st.done && st'.sender == st.sender
    ensures Later(st, st')
  {
  }

  lemma OwnStepLater(sys: System, ev: Event, s: Side, chunk: nat)
    requires chunk > 0 && !ev.RadioPop? && !ev.RadioDrop? && !ev.RadioDeliver? && !ev.RadioAck? && ev.s == s
    ensures Later(sys.streams.Get(s), Step(sys, ev, chunk).streams.Get(s))
  {
    hide Later, Pull, SendFrame, Accept, BeginSend, Advance, TakeAck, AfterTransmit, CanTransmit;
    var st, st' := sys.streams.Get(s), Step(sys, ev, chunk).streams.Get(s);
    NothingLater(st);
    SenderLater(st, if ev.AckPull? then Pull(sys.link, s, Ack).0 else None);
    if ev.Begin? {
      BeginLater(st, ev.data, chunk);
    } else if !ev.Transmit? && !ev.AckPull? && !ev.AckTimeout? && !ev.Proceed? {
      FlagsLater(st, st');
    }
  }

  ghost predicate Later(st: Stream, st': Stream) {
    && |st.log| <= |st'.log|
    && (st'.done == st.done || (st.sender.Sending? && st'.done == st.done + {|st.log| - 1}))
    && (st.sender.Idle? && |st'.log| == |st.log| ==> st'.sender.Idle?)
  }

  lemma SenderLater(st: Stream, ack: Option<Frame>)
    ensures Later(st, TakeAck(st, ack)) && Later(st, Advance(st)) && (CanTransmit(st) ==> Later(st, AfterTransmit(st)))
  {
  }

  lemma BeginLater(st: Stream, data: seq<byte>, chunk: nat)
    requires chunk > 0
    ensures Later(st, BeginSend(st, data, chunk))
  {
    hide Fragments, Packable, Left;
  }

  lemma LostStep(sys: System, ev: Event, s: Side, m: nat, chunk: nat)
    requires chunk > 0 && Lost(sys, s, m) && !ev.RadioDrop?
    ensures Lost(Step(sys, ev, chunk), s, m)
  {
    SidesKept(sys, ev, chunk);
    DoneGrows(sys, ev, s, chunk);
    var st := sys.streams.Get(s);
    if |st.log| == m + 1 && st.sender.Sending? { HopelessStep(sys, ev, s, chunk); }
    hide Step, FutureAcks, Hopeless, SidesInv;
  }

  lemma {:induction false} LostRun(sys: System, evs: seq<Event>, s: Side, m: nat, chunk: nat)
    requires chunk > 0 && Lost(sys, s, m) && NoDrop(evs)
    ensures Lost(Run(sys, evs, chunk), s, m)
  {
    if evs != [] {
      hide Lost, Step;
      var init := evs[..|evs| - 1];
      LostRun(sys, init, s, m, chunk);
      LostStep(Run(sys, init, chunk), evs[|evs| - 1], s, m, chunk);
    }
  }

  lemma {:induction false} LeadAll(fa: seq<Frame>, mid: nat)
    requires forall i :: 0 <= i < |fa| ==> fa[i].mid != mid
    ensures Lead(fa, mid) == |fa|
  {
    if fa != [] { LeadAll(fa[1..], mid); }
  }

  lemma CalledLost(before: seq<Event>, s: Side, data: seq<byte>, chunk: nat)
    requires chunk > 0
    requires var sys := Run(INIT, before, chunk); Callable(sys, s, data, chunk) && |FutureAcks(sys, s)| >= 40
    ensures var sys := Run(INIT, before, chunk); Lost(Run(sys, Called(s, data), chunk), s, |sys.streams.Get(s).log|)
  {
    var sys := Run(INIT, before, chunk);
    var st, fa := sys.streams.Get(s), FutureAcks(sys, s);
    RunInvariant(before, s, chunk);
    CalledState(sys, s, data, chunk);
    FutureBelow(sys, s, chunk);
    NewCall(Traffic(sys, s), chunk);
    hide Run, FutureAcks, SidesInv, Traffic, DirectionInv, Called, Fragments, Packable;
    LeadAll(fa, st.nextId);
  }

  /** A new call has an id that no message had, and is not done. */
  lemma NewCall(d: Direction, chunk: nat)
    requires chunk > 0 && DirectionInv(d, chunk) && |d.st.log| < 0x1_0000
    ensures d.st.nextId == |d.st.log| && |d.st.log| !in d.st.done
  {
    hide LineInv, AcksInv, SendingInv;
    DoneBelow(d.st, d.arrived, |d.st.log|, chunk);
  }

  lemma DoneBelow(st: Stream, arrived: seq<Frame>, m: int, chunk: nat)
    requires chunk > 0 && LogInv(st, arrived, chunk)
    ensures m in st.done ==> m < |st.log|
  {
  }

  /** With forty acknowledgements or more to come a call does not get through without a loss, whatever is done. */
  lemma NeverThrough(before: seq<Event>, s: Side, data: seq<byte>, evs: seq<Event>, chunk: nat)
    requires chunk > 0 && NoDrop(evs)
    requires var sys := Run(INIT, before, chunk); Callable(sys, s, data, chunk) && |FutureAcks(sys, s)| >= 40
    ensures var sys := Run(INIT, before, chunk);
      |sys.streams.Get(s).log| !in Run(Run(sys, Called(s, data), chunk), evs, chunk).streams.Get(s).done
  {
    hide Run, FutureAcks, Called, Callable;
    var sys := Run(INIT, before, chunk);
    CalledLost(before, s, data, chunk);
    LostRun(Run(sys, Called(s, data), chunk), evs, s, |sys.streams.Get(s).log|, chunk);
  }

  /** In any run, at an idle sender: if no further frame is lost, the next message can get through if and only if at
      most 39 acknowledgements of earlier transmissions are still to come. */
  lemma ThroughIff(before: seq<Event>, s: Side, data: seq<byte>, chunk: nat)
    requires chunk > 0 && Callable(Run(INIT, before, chunk), s, data, chunk)
    ensures var sys := Run(INIT, before, chunk);
      |FutureAcks(sys, s)| <= 39 <==>
      exists evs :: NoDrop(evs)
        && GotThrough(Run(Run(sys, Called(s, data), chunk), evs, chunk), s, data, |sys.streams.Get(s).log|)
  {
    hide Run, FutureAcks, Called, Callable, NoDrop;
    var sys := Run(INIT, before, chunk);
    var m := |sys.streams.Get(s).log|;
    if |FutureAcks(sys, s)| <= 39 {
      var evs := GetsThrough(before, s, data, chunk);
    } else {
      forall evs | NoDrop(evs)
        ensures !GotThrough(Run(Run(sys, Called(s, data), chunk), evs, chunk), s, data, m)
      {
        NeverThrough(before, s, data, evs, chunk);
      }
    }
  }

  // ---- a link that is dead for good, though nothing was lost ----

  /** Forty acknowledgements or more come before any that helps. */
  ghost predicate Dead(sys: System, s: Side) {
    var st, fa := sys.streams.Get(s), FutureAcks(sys, s);
    && |fa| >= 40 + (if st.sender.Sending? && st.sender.waiting then 1 else 0)
    && (st.sender.Sending? ==> Hopeless(st, fa))
  }

  lemma DeadTransmit(sys: System, s: Side, chunk: nat)
    requires chunk > 0 && Dead(sys, s)
    ensures Dead(Step(sys, Transmit(s), chunk), s)
  {
    var st, sys' := sys.streams.Get(s), Step(sys, Transmit(s), chunk);
    if CanTransmit(st) {
      HopelessTransmit(sys, s, chunk);
      TransmitFuture(sys, s, chunk);
      assert sys'.streams.Get(s) == AfterTransmit(st);
      hide FutureAcks, Step, Hopeless;
    } else {
      assert sys' == sys;
    }
  }

  lemma DeadPull(sys: System, s: Side, chunk: nat)
    requires chunk > 0 && Dead(sys, s)
    ensures Dead(Step(sys, AckPull(s), chunk), s)
  {
    var st, sys' := sys.streams.Get(s), Step(sys, AckPull(s), chunk);
    if st.sender.Sending? && st.sender.waiting {
      HopelessPull(sys, s, chunk);
      AckPullFuture(sys, s, chunk);
      hide FutureAcks, Step, Hopeless, Traffic;
    } else {
      assert sys' == sys;
    }
  }

  lemma BeginsInVain(st: Stream, data: seq<byte>, fa: seq<Frame>, chunk: nat)
    requires chunk > 0 && st.sender.Idle? && |fa| >= 40
    requires data in st.calling ==> IdsBelow(fa, |st.log|) && st.nextId == |st.log|
    ensures var st' := BeginSend(st, data, chunk);
      st'.sender.Sending? ==> !st'.sender.waiting && Hopeless(st', fa)
  {
    if data in st.calling { LeadAll(fa, st.nextId); }
    hide Fragments, Packable, Left, Lead;
  }

  lemma DeadBegin(sys: System, data: seq<byte>, s: Side, chunk: nat)
    requires chunk > 0 && Dead(sys, s) && DirectionInv(Traffic(sys, s), chunk)
    requires |Step(sys, Begin(s, data), chunk).streams.Get(s).log| <= ID_SPACE
    ensures Dead(Step(sys, Begin(s, data), chunk), s)
  {
    var st, fa := sys.streams.Get(s), FutureAcks(sys, s);
    OtherFuture(sys, Begin(s, data), s, chunk);
    FutureBelow(sys, s, chunk);
    CallStep(sys, Begin(s, data), s, chunk);
    BeginOnce(st, data, chunk);
    assert Traffic(sys, s).st == st;
    hide FutureAcks, Step, Traffic, DirectionInv, BeginSend, Hopeless, IdsBelow;
    if st.sender.Idle? {
      if data in st.calling { NewCall(Traffic(sys, s), chunk); }
      BeginsInVain(st, data, fa, chunk);
    }
  }

  lemma BeginOnce(st: Stream, data: seq<byte>, chunk: nat)
    requires chunk > 0
    ensures st.sender.Sending? ==> BeginSend(st, data, chunk) == st
    ensures st.sender.Idle? && data in st.calling ==> |BeginSend(st, data, chunk).log| == |st.log| + 1
  {
    hide Fragments, Packable, Left;
  }

  lemma DeadOther(sys: System, ev: Event, s: Side, chunk: nat)
    requires chunk > 0 && SidesInv(sys.link) && Dead(sys, s) && !ev.RadioDrop?
    requires ((ev.Transmit? || ev.AckPull?) ==> ev.s == s.Other()) && (ev.Begin? ==> ev.s == s.Other())
    ensures Dead(Step(sys, ev, chunk), s)
  {
    if sys.streams.Get(s).sender.Sending? {
      HopelessOther(sys, ev, s, chunk);
      SenderStays(sys, ev, s, chunk);
    } else {
      IdleStays(sys, ev, s, chunk);
    }
    if RadioWorks(ev) {
      RadioFuture(sys, ev, s, chunk);
    } else {
      OtherFuture(sys, ev, s, chunk);
    }
    hide FutureAcks, Step, Hopeless;
  }

  lemma IdleStays(sys: System, ev: Event, s: Side, chunk: nat)
    requires chunk > 0 && sys.streams.Get(s).sender.Idle? && (ev.Begin? ==> ev.s == s.Other())
    ensures Step(sys, ev, chunk).streams.Get(s).sender.Idle?
    ensures Step(sys, ev, chunk).streams.Get(s).done == sys.streams.Get(s).done
  {
    hide Pull, Pop, Drop, Deliver, QueueAck, SendFrame, Accept, Left, Fragments, Packable;
  }

  lemma DeadStep(sys: System, ev: Event, s: Side, chunk: nat)
    requires chunk > 0 && SystemInv(sys, s, chunk) && Dead(sys, s) && !ev.RadioDrop?
    requires |Step(sys, ev, chunk).streams.Get(s).log| <= ID_SPACE
    ensures Dead(Step(sys, ev, chunk), s) && Step(sys, ev, chunk).streams.Get(s).done == sys.streams.Get(s).done
  {
    LogGrows(sys, ev, s, chunk);
    if sys.streams.Get(s).sender.Sending? {
      HopelessStep(sys, ev, s, chunk);
    } else {
      DoneGrows(sys, ev, s, chunk);
    }
    hide Dead, Step, FutureAcks, Hopeless, SidesInv, DirectionInv, Traffic;
    if ev.Transmit? && ev.s == s {
      DeadTransmit(sys, s, chunk);
    } else if ev.AckPull? && ev.s == s {
      DeadPull(sys, s, chunk);
    } else if ev.Begin? && ev.s == s {
      DeadBegin(sys, ev.data, s, chunk);
    } else {
      if ev.Transmit? || ev.AckPull? || ev.Begin? { assert ev.s == s.Other(); }
      DeadOther(sys, ev, s, chunk);
    }
  }

  /** From then on, without a loss, no call of that side returns any more, within its first 65536 messages. */
  lemma {:induction false} DeadForGood(before: seq<Event>, evs: seq<Event>, s: Side, chunk: nat)
    requires chunk > 0 && NoDrop(evs)
    requires var sys := Run(INIT, before, chunk); sys.streams.Get(s).sender.Idle? && |FutureAcks(sys, s)| >= 40
    requires |Run(Run(INIT, before, chunk), evs, chunk).streams.Get(s).log| <= 0x1_0000
    ensures var sys := Run(INIT, before, chunk);
      Run(sys, evs, chunk).streams.Get(s).done == sys.streams.Get(s).done && Dead(Run(sys, evs, chunk), s)
  {
    var sys := Run(INIT, before, chunk);
    if evs != [] {
      var init, ev := evs[..|evs| - 1], evs[|evs| - 1];
      LogGrows(Run(sys, init, chunk), ev, s, chunk);
      RunAppend(INIT, before, init, chunk);
      RunInvariant(before + init, s, chunk);
      hide Dead, Step, FutureAcks, SystemInv;
      DeadForGood(before, init, s, chunk);
      DeadStep(Run(sys, init, chunk), ev, s, chunk);
    }
  }

  // ---- it comes to that without a loss ----

  const TRY: seq<Event> := [Transmit(A), AckTimeout(A)]

  /** The state of a sender whose waits have all timed out while the radio stood still. */
  ghost predicate Tried(sys: System, k: nat, chunk: nat)
    requires chunk > 0
  {
    var st := sys.streams.a;
    && st.sender == Sending(0, [[0]], 0, k, false) && st.acked == map[0 := {}] && st.log == [[0]] && !st.closed
    && !sys.streams.b.closed && |FutureAcks(sys, A)| == k
  }

  lemma TryAgain(sys: System, k: nat, chunk: nat)
    requires chunk > 0 && Tried(sys, k, chunk) && k < 40
    ensures Tried(Run(sys, TRY, chunk), k + 1, chunk)
  {
    var s1 := Step(sys, Transmit(A), chunk);
    RunSteps(sys, Transmit(A), AckTimeout(A), AckTimeout(A), chunk);
    TransmitFuture(sys, A, chunk);
    OtherFuture(s1, AckTimeout(A), A, chunk);
    hide FutureAcks, Run, SendFrame;
  }

  lemma FirstTry(chunk: nat)
    requires chunk > 0
    ensures Callable(INIT, A, [0], chunk) && Tried(Run(INIT, Called(A, [0]), chunk), 0, chunk)
  {
    assert Fragments([0], chunk) == [[0]];
    assert FutureAcks(INIT, A) == [];
    CalledState(INIT, A, [0], chunk);
    hide FutureAcks, Run, Fragments;
    assert [] + [[0]] == [[0]];
  }

  lemma {:induction false} TryMany(k: nat, chunk: nat) returns (evs: seq<Event>)
    requires chunk > 0 && k <= 40
    ensures NoDrop(evs) && Tried(Run(INIT, evs, chunk), k, chunk)
  {
    hide Tried, Run;
    if k == 0 {
      evs := Called(A, [0]);
      FirstTry(chunk);
    } else {
      var before := TryMany(k - 1, chunk);
      TryAgain(Run(INIT, before, chunk), k - 1, chunk);
      var try := TRY;
      RunBehind(INIT, before, Run(INIT, before, chunk), try, Run(Run(INIT, before, chunk), try, chunk), chunk);
      evs := before + try;
    }
  }

  /** A run without any loss behind which no call of side A returns any more, were every frame delivered from then on:
      its forty waits end before the radio, slow as it is, has moved a frame. */
  lemma DeadLinkHappens(chunk: nat) returns (evs: seq<Event>)
    requires chunk > 0
    ensures NoDrop(evs)
    ensures var sys := Run(INIT, evs, chunk);
      && sys.streams.a.sender.Idle? && !sys.streams.a.closed && !sys.streams.b.closed
      && sys.streams.a.log == [[0]] && |FutureAcks(sys, A)| == 41
  {
    var before := TryMany(40, chunk);
    var s1 := Run(INIT, before, chunk);
    TransmitFuture(s1, A, chunk);
    RunOne(INIT, before, Transmit(A), chunk);
    NoDropAppend(before, [Transmit(A)]);
    hide FutureAcks, Run, SendFrame;
    evs := before + [Transmit(A)];
  }
}
