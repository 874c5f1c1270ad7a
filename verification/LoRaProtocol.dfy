/** The ARQ of harness/lora.py as a state machine: every region under a lock is one atomic step, and the
    radio thread, the two senders and the two readers interleave freely. */
module LoRaProtocol {
  import opened Prelude
  import opened LoRaFrame
  import opened LoRaReceiver

  /** One value per side, as the two-key dicts of the link. */
  datatype Duo<T> = Duo(a: T, b: T) {
    function Get(s: Side): T {
      if s.A? then a else b
    }

    function Set(s: Side, v: T): Duo<T> {
      if s.A? then this.(a := v) else this.(b := v)
    }
  }

  /** Where the radio thread stands: between slots, holding the frame it popped, or having delivered a data
      frame whose ack it has not queued yet. */
  datatype Radio = Listening | InAir(frame: Frame) | OweAck(frame: Frame)

  datatype Link = Link(tx: Duo<seq<Frame>>, rx: Duo<seq<Frame>>, radio: Radio, turn: Side)

  // ---- queues ----

  /** The frames of one kind, in order. */
  function Of(q: seq<Frame>, k: Kind): seq<Frame> {
    if q == [] then []
    else if q[0].kind == k then [q[0]] + Of(q[1..], k)
    else Of(q[1..], k)
  }

  /** The position of the first frame of kind k, or |q|. */
  function FirstOf(q: seq<Frame>, k: Kind): (i: nat)
    ensures i <= |q|
    ensures i < |q| ==> q[i].kind == k
    ensures forall j :: 0 <= j < i ==> q[j].kind != k
  {
    if q == [] || q[0].kind == k then 0 else 1 + FirstOf(q[1..], k)
  }

  lemma {:induction false} OfAppend(p: seq<Frame>, q: seq<Frame>, k: Kind)
    ensures Of(p + q, k) == Of(p, k) + Of(q, k)
  {
    if p == [] {
      assert p + q == q;
    } else {
      OfAppend(p[1..], q, k);
      assert (p + q)[1..] == p[1..] + q;
      if p[0].kind == k {
        assert [p[0]] + (Of(p[1..], k) + Of(q, k)) == ([p[0]] + Of(p[1..], k)) + Of(q, k);
      }
    }
  }

  lemma OfSnoc(q: seq<Frame>, f: Frame, k: Kind)
    ensures Of(q + [f], k) == if f.kind == k then Of(q, k) + [f] else Of(q, k)
  {
    OfAppend(q, [f], k);
    assert [f][1..] == [];
  }

  lemma {:induction false} OfNone(q: seq<Frame>, k: Kind)
    requires forall j :: 0 <= j < |q| ==> q[j].kind != k
    ensures Of(q, k) == []
  {
    if q != [] { OfNone(q[1..], k); }
  }

  /** Taking out the frame at position i. */
  lemma OfSplit(q: seq<Frame>, i: nat, k: Kind)
    requires i < |q|
    ensures q[i].kind != k ==> Of(q, k) == Of(q[..i] + q[i + 1..], k)
    ensures q[i].kind == k && Of(q[..i], k) == [] ==> Of(q, k) == [q[i]] + Of(q[..i] + q[i + 1..], k)
  {
    var head, rest, tail := q[..i], q[i + 1..], q[i..];
    assert q == head + tail && tail[0] == q[i] && tail[1..] == rest;
    OfAppend(head, tail, k);
    OfAppend(head, rest, k);
    if Of(head, k) == [] {
      assert Of(head + tail, k) == Of(tail, k) && Of(head + rest, k) == Of(rest, k);
    }
  }

  /** `_pull` takes the first frame of its kind and leaves the frames of the other kind alone. */
  lemma PullOf(q: seq<Frame>, k: Kind)
    ensures FirstOf(q, k) == |q| <==> Of(q, k) == []
    ensures FirstOf(q, k) < |q| ==>
              && var i := FirstOf(q, k);
                 var rest := q[..i] + q[i + 1..];
                 && Of(q, k) == [q[i]] + Of(rest, k)
                 && forall k' :: k' != k ==> Of(rest, k') == Of(q, k')
  {
    var i := FirstOf(q, k);
    OfNone(q[..i], k);
    if i < |q| {
      OfSplit(q, i, Data);
      OfSplit(q, i, Ack);
    } else {
      assert q[..i] == q;
    }
  }

  // ---- the link ----

  function SendFrame(l: Link, s: Side, f: Frame): Link {
    l.(tx := l.tx.Set(s, l.tx.Get(s) + [f]))
  }

  function Pull(l: Link, s: Side, k: Kind): (Option<Frame>, Link) {
    var q := l.rx.Get(s);
    var i := FirstOf(q, k);
    if i == |q| then (None, l) else (Some(q[i]), l.(rx := l.rx.Set(s, q[..i] + q[i + 1..])))
  }

  /** The locked pop at the head of the radio loop; the two sides take turns. */
  function Pop(l: Link): Link {
    var q := l.tx.Get(l.turn);
    if !l.radio.Listening? then l
    else if q == [] then l.(turn := l.turn.Other())
    else l.(turn := l.turn.Other(), tx := l.tx.Set(l.turn, q[1..]), radio := InAir(q[0]))
  }

  function Drop(l: Link): Link {
    if l.radio.InAir? then l.(radio := Listening) else l
  }

  function Deliver(l: Link): Link {
    if !l.radio.InAir? then l
    else
      var f := l.radio.frame;
      var target := f.side.Other();
      l.(rx := l.rx.Set(target, l.rx.Get(target) + [f]), radio := if f.kind.Data? then OweAck(f) else Listening)
  }

  function QueueAck(l: Link): Link {
    if !l.radio.OweAck? then l
    else SendFrame(l, l.radio.frame.side.Other(), AckFrame(l.radio.frame)).(radio := Listening)
  }

  // ---- one endpoint ----

  /** Where `sendall` stands. `waiting` is inside next_ack; otherwise it is at the test of the retry loop. */
  datatype Sender = Idle | Sending(mid: nat, frags: seq<seq<byte>>, idx: nat, tries: nat, waiting: bool)

  /** `calling`: the messages of the threads inside `sendall` that have passed its two tests and not got the lock yet.
      `receiving`: the reader is inside the loop of `recv`. `log`, `done` and `pulled` are history: the messages that
      were given a message id, the positions in it of those whose `sendall` returned, and the data frames the reader
      took off its queue. */
  datatype Stream = Stream(nextId: nat, acked: map<nat, set<nat>>, calling: multiset<seq<byte>>, sender: Sender,
                           closed: bool, receiver: Receiver, receiving: bool,
                           log: seq<seq<byte>>, done: set<int>, pulled: seq<Frame>)

  const MAX_TRIES: nat := 40
  const ID_SPACE: nat := 0x1_0000

  /** `sendall` up to its lock: a closed stream raises and no data returns 0, both at once. */
  function EnterSend(st: Stream, data: seq<byte>): Stream {
    if st.closed || data == [] then st else st.(calling := st.calling + multiset{data})
  }

  /** One call the fewer. */
  function Left(calling: multiset<seq<byte>>, data: seq<byte>): multiset<seq<byte>> {
    calling - multiset{data}
  }

  lemma LeftOthers(calling: multiset<seq<byte>>, data: seq<byte>, other: seq<byte>)
    requires other !in calling
    ensures other !in Left(calling, data)
  {
  }

  /** `sendall` from its lock up to its first retry loop. Whether the stream is closed is not asked again. A message
      whose first `_pack` raises has used up a message id. */
  function BeginSend(st: Stream, data: seq<byte>, chunk: nat): Stream
    requires chunk > 0
  {
    if data !in st.calling || st.sender.Sending? then st
    else
      var frags := Fragments(data, chunk);
      st.(calling := Left(st.calling, data),
          nextId := (st.nextId + 1) % ID_SPACE,
          acked := st.acked[st.nextId := {}],
          log := st.log + [data],
          sender := if Packable(frags) then Sending(st.nextId, frags, 0, 0, false) else Idle)
  }

  predicate IsAcked(st: Stream) {
    st.sender.Sending? && st.sender.mid in st.acked && st.sender.idx in st.acked[st.sender.mid]
  }

  predicate CanTransmit(st: Stream) {
    st.sender.Sending? && !st.sender.waiting && !IsAcked(st) && st.sender.idx < |st.sender.frags|
  }

  /** One turn of the retry loop: the frame is queued, and the 41st try gives up after queueing it. */
  function AfterTransmit(st: Stream): Stream
    requires CanTransmit(st)
  {
    if st.sender.tries + 1 > MAX_TRIES then st.(sender := Idle)
    else st.(sender := st.sender.(tries := st.sender.tries + 1, waiting := true))
  }

  /** What `next_ack` brought: nothing on a timeout. */
  function TakeAck(st: Stream, ack: Option<Frame>): Stream {
    if !st.sender.Sending? || !st.sender.waiting then st
    else
      var mid := st.sender.mid;
      st.(sender := st.sender.(waiting := false),
          acked := if ack.Some? && ack.value.mid == mid && mid in st.acked
                   then st.acked[mid := st.acked[mid] + {ack.value.idx}] else st.acked)
  }

  /** Leaving the retry loop: the next fragment, or the return of `sendall`. */
  function Advance(st: Stream): Stream {
    if !st.sender.Sending? || st.sender.waiting || !IsAcked(st) then st
    else if st.sender.idx + 1 < |st.sender.frags| then
      st.(sender := st.sender.(idx := st.sender.idx + 1, tries := 0))
    else
      st.(sender := Idle, done := st.done + {|st.log| - 1})
  }

  /** A data frame taken off the queue inside the loop of `recv`, which a new message ends. */
  ghost function TakeData(st: Stream, f: Frame): Stream {
    var r := Accept(st.receiver, f);
    st.(receiver := r, receiving := |r.returned| == |st.receiver.returned|, pulled := st.pulled + [f])
  }

  // ---- the whole system ----

  datatype System = System(link: Link, streams: Duo<Stream>)

  datatype Event =
    | RadioPop | RadioDrop | RadioDeliver | RadioAck
    | Enter(s: Side, data: seq<byte>) | Begin(s: Side, data: seq<byte>) | Transmit(s: Side)
    | AckPull(s: Side) | AckTimeout(s: Side)
    | Proceed(s: Side) | BeginRecv(s: Side) | Recv(s: Side) | RecvTimeout(s: Side) | Close(s: Side)

  const NEW_STREAM := Stream(0, map[], multiset{}, Idle, false, FRESH, false, [], {}, [])
  const INIT := System(Link(Duo([], []), Duo([], []), Listening, A), Duo(NEW_STREAM, NEW_STREAM))

  function SetStream(sys: System, s: Side, st: Stream): System {
    sys.(streams := sys.streams.Set(s, st))
  }

  /** One step of one thread. An event that is not enabled changes nothing. */
  ghost function Step(sys: System, ev: Event, chunk: nat): System
    requires chunk > 0
  {
    match ev
    case RadioPop => sys.(link := Pop(sys.link))
    case RadioDrop => sys.(link := Drop(sys.link))
    case RadioDeliver => sys.(link := Deliver(sys.link))
    case RadioAck => sys.(link := QueueAck(sys.link))
    case Enter(s, data) => SetStream(sys, s, EnterSend(sys.streams.Get(s), data))
    case Begin(s, data) => SetStream(sys, s, BeginSend(sys.streams.Get(s), data, chunk))
    case Transmit(s) =>
      var st := sys.streams.Get(s);
      if !CanTransmit(st) then sys
      else SetStream(sys.(link := SendFrame(sys.link, s, DataFrame(s, st.sender.mid, st.sender.frags, st.sender.idx))),
                     s, AfterTransmit(st))
    case AckPull(s) =>
      var st := sys.streams.Get(s);
      if !st.sender.Sending? || !st.sender.waiting then sys
      else
        var (ack, link) := Pull(sys.link, s, Ack);
        if ack.None? then sys else SetStream(sys.(link := link), s, TakeAck(st, ack))
    case AckTimeout(s) => SetStream(sys, s, TakeAck(sys.streams.Get(s), None))
    case Proceed(s) => SetStream(sys, s, Advance(sys.streams.Get(s)))
    case BeginRecv(s) =>
      if sys.streams.Get(s).closed then sys else SetStream(sys, s, sys.streams.Get(s).(receiving := true))
    case RecvTimeout(s) => SetStream(sys, s, sys.streams.Get(s).(receiving := false))
    case Recv(s) =>
      var (f, link) := Pull(sys.link, s, Data);
      if f.None? || !sys.streams.Get(s).receiving then sys
      else SetStream(sys.(link := link), s, TakeData(sys.streams.Get(s), f.value))
    case Close(s) => SetStream(sys, s, sys.streams.Get(s).(closed := true))
  }

  ghost function Run(sys: System, evs: seq<Event>, chunk: nat): System
    requires chunk > 0
  {
    if evs == [] then sys else Step(Run(sys, evs[..|evs| - 1], chunk), evs[|evs| - 1], chunk)
  }

  lemma {:induction false} RunAppend(sys: System, p: seq<Event>, q: seq<Event>, chunk: nat)
    requires chunk > 0
    ensures Run(sys, p + q, chunk) == Run(Run(sys, p, chunk), q, chunk)
  {
    if q == [] {
      assert p + q == p;
    } else {
      RunAppend(sys, p, q[..|q| - 1], chunk);
      assert (p + q)[..|p + q| - 1] == p + q[..|q| - 1];
    }
  }

  // ---- one direction of traffic: from s to s.Other() ----

  function AirData(radio: Radio, s: Side): seq<Frame> {
    if radio.InAir? && radio.frame.kind.Data? && radio.frame.side == s then [radio.frame] else []
  }

  function AirAck(radio: Radio, s: Side): seq<Frame> {
    if radio.InAir? && radio.frame.kind.Ack? && radio.frame.side == s.Other() then [radio.frame]
    else if radio.OweAck? && radio.frame.side == s then [AckFrame(radio.frame)]
    else []
  }

  /** All that concerns the traffic from s: its sender, its data frames that reached the other side's queue
      (whether or not the reader took them), those still on their way, and the acks coming back. */
  datatype Direction = Direction(st: Stream, arrived: seq<Frame>, underway: seq<Frame>,
                                 rxAcks: seq<Frame>, airAcks: seq<Frame>, txAcks: seq<Frame>) {
    function Line(): seq<Frame> {
      arrived + underway
    }
  }

  function Traffic(sys: System, s: Side): Direction {
    Direction(sys.streams.Get(s),
              sys.streams.Get(s.Other()).pulled + Of(sys.link.rx.Get(s.Other()), Data),
              AirData(sys.link.radio, s) + Of(sys.link.tx.Get(s), Data),
              Of(sys.link.rx.Get(s), Ack),
              AirAck(sys.link.radio, s),
              Of(sys.link.tx.Get(s.Other()), Ack))
  }

  /** Every frame of q acknowledges a fragment that arrived. */
  ghost predicate Backed(q: seq<Frame>, arrived: seq<Frame>) {
    forall k :: 0 <= k < |q| ==> Has(arrived, q[k].mid, q[k].idx)
  }

  ghost predicate NotAfter(line: seq<Frame>, mid: nat, idx: nat) {
    forall k :: 0 <= k < |line| ==> line[k].mid < mid || (line[k].mid == mid && line[k].idx <= idx)
  }

  /** The data frames of s, oldest first, are fragments of its messages in non-decreasing order. */
  ghost predicate LineInv(line: seq<Frame>, log: seq<seq<byte>>, chunk: nat)
    requires chunk > 0
  {
    AreFragments(line, log, chunk) && NonDecreasing(line)
  }

  ghost predicate AcksInv(d: Direction) {
    Backed(d.rxAcks, d.arrived) && Backed(d.airAcks, d.arrived) && Backed(d.txAcks, d.arrived)
  }

  ghost predicate LogInv(st: Stream, arrived: seq<Frame>, chunk: nat)
    requires chunk > 0
  {
    && st.nextId == |st.log| % ID_SPACE
    && [] !in st.calling
    && (forall m: nat :: m < |st.log| ==> st.log[m] != [])
    && (forall m :: m in st.done ==> 0 <= m && Complete(arrived, m, st.log, chunk))
  }

  /** The sender never runs ahead of what arrived: stop and wait. */
  ghost predicate SendingInv(st: Stream, line: seq<Frame>, arrived: seq<Frame>, chunk: nat)
    requires chunk > 0
  {
    st.sender.Sending? ==>
      && |st.log| > 0
      && st.sender.mid == |st.log| - 1
      && st.sender.frags == Fragments(st.log[|st.log| - 1], chunk)
      && Packable(st.sender.frags)
      && st.sender.idx < |st.sender.frags|
      && NotAfter(line, st.sender.mid, st.sender.idx)
      && (forall i: nat :: i < st.sender.idx ==> Has(arrived, st.sender.mid, i))
      && st.sender.mid in st.acked
      && (forall i :: i in st.acked[st.sender.mid] ==> Has(arrived, st.sender.mid, i))
  }

  ghost predicate DirectionInv(d: Direction, chunk: nat)
    requires chunk > 0
  {
    && LineInv(d.Line(), d.st.log, chunk)
    && AcksInv(d)
    && LogInv(d.st, d.arrived, chunk)
    && SendingInv(d.st, d.Line(), d.arrived, chunk)
  }

  ghost predicate AllFrom(q: seq<Frame>, s: Side) {
    forall k :: 0 <= k < |q| ==> q[k].side == s
  }

  /** A frame waits on the side that sent it. */
  ghost predicate SidesInv(l: Link) {
    AllFrom(l.tx.a, A) && AllFrom(l.tx.b, B)
  }

  ghost predicate ReaderInv(st: Stream) {
    st.receiver == Receive(st.pulled)
  }

  ghost predicate ReadersInv(sys: System) {
    ReaderInv(sys.streams.a) && ReaderInv(sys.streams.b)
  }

  lemma SidesKept(sys: System, ev: Event, chunk: nat)
    requires chunk > 0 && SidesInv(sys.link)
    ensures SidesInv(Step(sys, ev, chunk).link)
  {
  }

  lemma TakeDataKeeps(st: Stream, f: Frame)
    requires ReaderInv(st)
    ensures ReaderInv(TakeData(st, f))
  {
    ReceiveAppend(st.pulled, f);
  }

  /** Only `recv` touches the reader's state. */
  lemma ReaderUntouched(sys: System, ev: Event, chunk: nat, s: Side)
    requires chunk > 0 && !(ev.Recv? && ev.s == s)
    ensures Step(sys, ev, chunk).streams.Get(s).pulled == sys.streams.Get(s).pulled
    ensures Step(sys, ev, chunk).streams.Get(s).receiver == sys.streams.Get(s).receiver
  {
    hide Pop, Drop, Deliver, QueueAck, SendFrame, Pull, TakeData, Fragments, Packable, DataFrame, Left, IsAcked;
  }

  lemma ReadersKept(sys: System, ev: Event, chunk: nat)
    requires chunk > 0 && ReadersInv(sys)
    ensures ReadersInv(Step(sys, ev, chunk))
  {
    if ev.Recv? {
      ReaderUntouched(sys, ev, chunk, ev.s.Other());
      var f := Pull(sys.link, ev.s, Data).0;
      if f.Some? && sys.streams.Get(ev.s).receiving { TakeDataKeeps(sys.streams.Get(ev.s), f.value); }
    } else {
      ReaderUntouched(sys, ev, chunk, A);
      ReaderUntouched(sys, ev, chunk, B);
    }
  }
}
