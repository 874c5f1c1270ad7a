/** Runs of the gossip: what every run keeps, that no op is lost, and what the nodes hold when all has settled. */
module GossipRuns {
  import opened Prelude
  import opened GossipNet
  import opened GossipInvariant

  ghost predicate HalfSafe(m: Mesh, s: Net, h: nat)
    requires Shape(m, s) && h < |m.halves|
  {
    ValidHalf(m, m.halves[h], h) && WireSafe(h, s.nodes[m.halves[h].from], s.nodes[m.halves[h].to], s.wires[h])
  }

  /** The op is not lost on one direction of a link. */
  ghost predicate OpSafe(m: Mesh, s: Net, h: nat, o: Op)
    requires Shape(m, s) && h < |m.halves|
  {
    ValidHalf(m, m.halves[h], h)
    && NotLost(m, m.halves[h].to, h, s.nodes[m.halves[h].from], s.nodes[m.halves[h].to], s.wires[h], o)
  }

  /** What was published is known where it was published. */
  ghost predicate OwnOps(s: Net) {
    forall o :: o in s.published ==> o.origin < |s.nodes| && o in s.nodes[o.origin].log
  }

  /** What every run keeps, however long. */
  ghost predicate Safe(m: Mesh, s: Net) {
    && Shape(m, s)
    && OneOpPerClock(s.published)
    && OwnOps(s)
    && (forall i :: 0 <= i < m.size ==> NodeOk(s.nodes[i], s.published))
    && (forall h :: 0 <= h < |m.halves| ==> HalfSafe(m, s, h))
  }

  lemma InitialSafe(m: Mesh)
    requires ValidMesh(m)
    ensures Safe(m, Initial(m))
  {
  }

  /** The first catch-up of a direction is cut while the op is not recorded yet, or still in the history. */
  ghost predicate InTime(m: Mesh, s: Net, e: Event, h: nat, o: Op)
    requires Shape(m, s) && h < |m.halves|
  {
    e == Snapshot(h) && s.wires[h].snaps == 0 ==>
      m.halves[h].from < m.size && Caught(s.nodes[m.halves[h].from].recorded, o)
  }

  /** What a step does to one op: lost nowhere it was not lost before, provided its catch-ups are in time. */
  ghost predicate KeepsOp(m: Mesh, s: Net, e: Event, t: Net, o: Op)
    requires Shape(m, s) && Shape(m, t)
  {
    forall h :: 0 <= h < |m.halves| && OpSafe(m, s, h, o) && InTime(m, s, e, h, o) ==> OpSafe(m, t, h, o)
  }

  // ---- every step ----

  lemma NodePublished(n: Node, published: seq<Op>, op: Op)
    requires NodeOk(n, published)
    ensures NodeOk(n, published + [op])
  {
  }

  lemma NewClock(n: Node, o: Op, op: Op)
    requires o in n.log && (o.origin == op.origin ==> !Knows(n, op))
    ensures !SameClock(o, op)
  {
  }

  lemma PublishKeeps(m: Mesh, s: Net, i: nat, op: Op, o: Op)
    requires Safe(m, s) && Enabled(m, s, Publish(i, op))
    ensures Safe(m, Step(m, s, Publish(i, op)))
    ensures KeepsOp(m, s, Publish(i, op), Step(m, s, Publish(i, op)), o)
  {
    hide NodeOk, WireSafe, NotLost;
    var t := Step(m, s, Publish(i, op));
    assert t.published[|s.published|] == op && t.nodes[i].log[|s.nodes[i].log|] == op;
    forall p | p in s.published
      ensures !SameClock(p, op)
    {
      NewClock(s.nodes[p.origin], p, op);
    }
    forall k | 0 <= k < m.size
      ensures NodeOk(t.nodes[k], t.published)
    {
      NodePublished(s.nodes[k], s.published, op);
      if k == i { NodeAccepts(s.nodes[i], t.published, op, None); }
    }
    forall h | 0 <= h < |m.halves|
      ensures HalfSafe(m, t, h) && (OpSafe(m, s, h, o) ==> OpSafe(m, t, h, o))
    {
      assert HalfSafe(m, s, h);
      var half := m.halves[h];
      var a, b, w := s.nodes[half.from], s.nodes[half.to], s.wires[h];
      if half.from == i {
        SafeAccept(h, a, b, w, op, None);
        if OpSafe(m, s, h, o) { OpAccept(m, half.to, h, a, b, w, o, op, None); }
      } else {
        SafeOther(h, a, b, t.nodes[half.to], w);
        if OpSafe(m, s, h, o) { OpOther(m, half.to, h, a, b, t.nodes[half.to], w, o); }
      }
    }
  }

  lemma RecordKeeps(m: Mesh, s: Net, i: nat, k: nat, o: Op)
    requires Safe(m, s) && Enabled(m, s, Record(i, k))
    ensures Safe(m, Step(m, s, Record(i, k)))
    ensures KeepsOp(m, s, Record(i, k), Step(m, s, Record(i, k)), o)
  {
    hide NodeOk, WireSafe, NotLost;
    var t := Step(m, s, Record(i, k));
    NodeRecords(s.nodes[i], s.published, k);
    forall h | 0 <= h < |m.halves|
      ensures HalfSafe(m, t, h) && (OpSafe(m, s, h, o) ==> OpSafe(m, t, h, o))
    {
      assert HalfSafe(m, s, h);
      var half := m.halves[h];
      var a, b, w := s.nodes[half.from], s.nodes[half.to], s.wires[h];
      if half.from == i {
        SafeRecord(h, a, b, w, k);
        if OpSafe(m, s, h, o) { OpRecord(m, half.to, h, a, b, w, o, k); }
      } else {
        SafeOther(h, a, b, t.nodes[half.to], w);
        if OpSafe(m, s, h, o) { OpOther(m, half.to, h, a, b, t.nodes[half.to], w, o); }
      }
    }
  }

  lemma TaskLogged(n: Node, published: seq<Op>, k: nat)
    requires NodeOk(n, published) && k < |n.tasks|
    ensures n.tasks[k].op in n.log
  {
    assert n.tasks[k] in n.tasks;
  }

  lemma SentOn(m: Mesh, wires: seq<Wire>, i: nat, t: Task, h: nat)
    requires |wires| == |m.halves| && h < |wires|
    ensures SendTo(m, wires, i, t)[h] == if m.halves[h].from == i then AfterSend(h, wires[h], t) else wires[h]
  {
  }

  /** A task that is sent is one frame more on every joined direction of its node, and none on the one it came from. */
  lemma SentNotBack(m: Mesh, s: Net, i: nat, k: nat, h: nat)
    requires Shape(m, s) && Enabled(m, s, SendAll(i, k)) && h < |m.halves|
    ensures Step(m, s, SendAll(i, k)).wires[h].frames == s.wires[h].frames +
              if m.halves[h].from != i || !s.wires[h].joined then []
              else if s.nodes[i].tasks[k].source == Some(h) then []
              else [s.nodes[i].tasks[k].op]
  {
    SentOn(m, s.wires, i, s.nodes[i].tasks[k], h);
  }

  // ---- the frames of one direction of a link ----

  /** The op that one event puts on one direction of a link, if any. */
  function Put(m: Mesh, s: Net, e: Event, h: nat): seq<Op>
    requires Shape(m, s) && Enabled(m, s, e) && h < |m.halves|
  {
    match e
    case SendAll(i, k) =>
      var task := s.nodes[i].tasks[k];
      if m.halves[h].from == i && s.wires[h].joined && task.source != Some(h) then [task.op] else []
    case CatchUp(g) => if g == h then [s.wires[h].catchup[0]] else []
    case _ => []
  }

  /** And the one that the other end takes off. */
  function Took(m: Mesh, s: Net, e: Event, h: nat): seq<Op>
    requires Shape(m, s) && Enabled(m, s, e) && h < |m.halves|
  {
    if e == Deliver(h) then [s.wires[h].frames[0]] else []
  }

  ghost function AllPut(m: Mesh, s: Net, events: seq<Event>, t: Net, h: nat): seq<Op>
    requires Shape(m, s) && Run(m, s, events, t) && h < |m.halves|
    decreases |events|
  {
    if events == [] then []
    else Put(m, s, events[0], h) + AllPut(m, Step(m, s, events[0]), events[1..], t, h)
  }

  ghost function AllTaken(m: Mesh, s: Net, events: seq<Event>, t: Net, h: nat): seq<Op>
    requires Shape(m, s) && Run(m, s, events, t) && h < |m.halves|
    decreases |events|
  {
    if events == [] then []
    else Took(m, s, events[0], h) + AllTaken(m, Step(m, s, events[0]), events[1..], t, h)
  }

  lemma StepInOrder(m: Mesh, s: Net, e: Event, h: nat)
    requires Shape(m, s) && Enabled(m, s, e) && h < |m.halves|
    ensures s.wires[h].frames + Put(m, s, e, h) == Took(m, s, e, h) + Step(m, s, e).wires[h].frames
  {
    if e.SendAll? { SentNotBack(m, s, e.node, e.task, h); }
    hide SendTo, Receive, Newest;
  }

  lemma Between<T>(a: seq<T>, b: seq<T>, c: seq<T>, d: seq<T>, e: seq<T>, f: seq<T>)
    requires a + b == c + d && d + e == f
    ensures a + (b + e) == c + f
  {
    assert a + (b + e) == (a + b) + e;
    assert c + (d + e) == (c + d) + e;
  }

  /** What arrives over one direction of a link is what was sent on it, in that order, in a run of any length. */
  lemma {:induction false} WireInOrder(m: Mesh, s: Net, events: seq<Event>, t: Net, h: nat)
    requires Shape(m, s) && Run(m, s, events, t) && h < |m.halves|
    ensures s.wires[h].frames + AllPut(m, s, events, t, h) == AllTaken(m, s, events, t, h) + t.wires[h].frames
    decreases |events|
  {
    if events == [] {
      assert s.wires[h].frames + [] == [] + t.wires[h].frames;
    } else {
      var u := Step(m, s, events[0]);
      StepInOrder(m, s, events[0], h);
      WireInOrder(m, u, events[1..], t, h);
      var more, rest := AllPut(m, u, events[1..], t, h), AllTaken(m, u, events[1..], t, h);
      Between(s.wires[h].frames, Put(m, s, events[0], h), Took(m, s, events[0], h), u.wires[h].frames, more,
              rest + t.wires[h].frames);
      assert Took(m, s, events[0], h) + (rest + t.wires[h].frames) ==
             Took(m, s, events[0], h) + rest + t.wires[h].frames;
    }
  }

  lemma SendKeepsHalf(m: Mesh, s: Net, i: nat, k: nat, h: nat, o: Op)
    requires Safe(m, s) && Enabled(m, s, SendAll(i, k)) && h < |m.halves|
    ensures HalfSafe(m, Step(m, s, SendAll(i, k)), h)
    ensures OpSafe(m, s, h, o) ==> OpSafe(m, Step(m, s, SendAll(i, k)), h, o)
  {
    var t := Step(m, s, SendAll(i, k));
    TaskLogged(s.nodes[i], s.published, k);
    SentOn(m, s.wires, i, s.nodes[i].tasks[k], h);
    hide NodeOk, WireSafe, NotLost, SendTo, AfterSend, Without;
    assert HalfSafe(m, s, h);
    var half := m.halves[h];
    var a, b, w := s.nodes[half.from], s.nodes[half.to], s.wires[h];
    if half.from == i {
      SafeSend(h, a, b, w, k);
      if OpSafe(m, s, h, o) { OpSend(m, half.to, h, a, b, w, o, k); }
    } else {
      SafeOther(h, a, b, t.nodes[half.to], w);
      if OpSafe(m, s, h, o) { OpOther(m, half.to, h, a, b, t.nodes[half.to], w, o); }
    }
  }

  lemma SendKeeps(m: Mesh, s: Net, i: nat, k: nat, o: Op)
    requires Safe(m, s) && Enabled(m, s, SendAll(i, k))
    ensures Safe(m, Step(m, s, SendAll(i, k)))
    ensures KeepsOp(m, s, SendAll(i, k), Step(m, s, SendAll(i, k)), o)
  {
    NodeSends(s.nodes[i], s.published, k);
    hide NodeOk, HalfSafe, OpSafe, SendTo, Without;
    forall h | 0 <= h < |m.halves|
      ensures HalfSafe(m, Step(m, s, SendAll(i, k)), h)
      ensures OpSafe(m, s, h, o) ==> OpSafe(m, Step(m, s, SendAll(i, k)), h, o)
    {
      SendKeepsHalf(m, s, i, k, h, o);
    }
  }

  /** The steps on one direction of a link that no node takes part in. */
  lemma WireStepKeeps(m: Mesh, s: Net, e: Event, o: Op)
    requires Safe(m, s) && Enabled(m, s, e) && (e.Join? || e.Snapshot? || e.CatchUp?)
    ensures Safe(m, Step(m, s, e))
    ensures KeepsOp(m, s, e, Step(m, s, e), o)
  {
    hide NodeOk, NotLost, Caught;
    var t, h := Step(m, s, e), e.half;
    assert HalfSafe(m, s, h);
    var half := m.halves[h];
    var a, b, w := s.nodes[half.from], s.nodes[half.to], s.wires[h];
    if e.Snapshot? {
      SafeSnapshot(h, a, b, w, s.published);
      if OpSafe(m, s, h, o) && InTime(m, s, e, h, o) { OpSnapshot(m, half.to, h, a, b, w, o, s.published); }
    } else if e.CatchUp? {
      SafeCatchUp(h, a, b, w);
      if OpSafe(m, s, h, o) { OpCatchUp(m, half.to, h, a, b, w, o); }
    } else if OpSafe(m, s, h, o) {
      OpJoin(m, half.to, h, a, b, w, o);
    }
    hide WireSafe;
    forall g | 0 <= g < |m.halves|
      ensures HalfSafe(m, t, g)
    {
      assert HalfSafe(m, s, g);
    }
  }

  lemma OpJoin(m: Mesh, j: nat, h: nat, a: Node, b: Node, w: Wire, o: Op)
    requires j < |m.allow| && NotLost(m, j, h, a, b, w, o)
    ensures NotLost(m, j, h, a, b, w.(joined := true), o)
  {
  }

  lemma FrameLogged(m: Mesh, s: Net, h: nat)
    requires Safe(m, s) && h < |m.halves| && s.wires[h].frames != []
    ensures ValidHalf(m, m.halves[h], h)
    ensures s.wires[h].frames[0] in s.nodes[m.halves[h].from].log
    ensures s.wires[h].frames[0] in s.published
  {
    assert HalfSafe(m, s, h);
    assert s.wires[h].frames[0] in s.wires[h].frames;
    assert NodeOk(s.nodes[m.halves[h].from], s.published);
  }

  lemma NodeReceives(m: Mesh, j: nat, n: Node, published: seq<Op>, op: Op, back: nat)
    requires j < |m.allow| && NodeOk(n, published) && op in published
    ensures NodeOk(Receive(m, j, n, op, back), published)
    ensures forall o :: o in n.log ==> o in Receive(m, j, n, op, back).log
  {
    if Allowed(m, j, op.origin) && !Knows(n, op) { NodeAccepts(n, published, op, Some(back)); }
  }

  /** The other direction, and the other links, of the node that receives. */
  lemma WireReceive(m: Mesh, k: nat, g: nat, b: Node, c: Node, w: Wire, j: nat, op: Op, back: nat, o: Op)
    requires k < |m.allow| && j < |m.allow| && WireSafe(g, b, c, w) && (g == back ==> op in c.log)
    ensures WireSafe(g, Receive(m, j, b, op, back), c, w)
    ensures NotLost(m, k, g, b, c, w, o) ==> NotLost(m, k, g, Receive(m, j, b, op, back), c, w, o)
  {
    hide WireSafe, NotLost;
    if Allowed(m, j, op.origin) && !Knows(b, op) {
      SafeAccept(g, b, c, w, op, Some(back));
      if NotLost(m, k, g, b, c, w, o) { OpAccept(m, k, g, b, c, w, o, op, Some(back)); }
    }
  }

  lemma SafeDeliver(h: nat, a: Node, b: Node, b': Node, w: Wire)
    requires WireSafe(h, a, b, w) && w.frames != [] && forall o :: o in b.log ==> o in b'.log
    ensures WireSafe(h, a, b', w.(frames := w.frames[1..]))
  {
  }

  lemma DeliverKeeps(m: Mesh, s: Net, h: nat, o: Op)
    requires Safe(m, s) && Enabled(m, s, Deliver(h))
    ensures Safe(m, Step(m, s, Deliver(h)))
    ensures KeepsOp(m, s, Deliver(h), Step(m, s, Deliver(h)), o)
  {
    hide NodeOk, WireSafe, NotLost, Receive, OneOpPerClock;
    FrameLogged(m, s, h);
    var t, half := Step(m, s, Deliver(h)), m.halves[h];
    var op, j := s.wires[h].frames[0], half.to;
    NodeReceives(m, j, s.nodes[j], s.published, op, half.twin);
    forall g | 0 <= g < |m.halves|
      ensures HalfSafe(m, t, g) && (OpSafe(m, s, g, o) ==> OpSafe(m, t, g, o))
    {
      assert HalfSafe(m, s, g);
      var other := m.halves[g];
      var a, b, w := s.nodes[other.from], s.nodes[other.to], s.wires[g];
      if g == h {
        SafeDeliver(h, a, b, t.nodes[j], w);
        if OpSafe(m, s, g, o) { OpDeliver(m, j, h, a, b, w, o, half.twin, s.published); }
      } else if other.from == j {
        WireReceive(m, other.to, g, a, b, w, j, op, half.twin, o);
      } else {
        SafeOther(g, a, b, t.nodes[other.to], w);
        if OpSafe(m, s, g, o) { OpOther(m, other.to, g, a, b, t.nodes[other.to], w, o); }
      }
    }
  }

  lemma StepKeeps(m: Mesh, s: Net, e: Event, o: Op)
    requires Safe(m, s) && Enabled(m, s, e)
    ensures Safe(m, Step(m, s, e))
    ensures KeepsOp(m, s, e, Step(m, s, e), o)
  {
    hide Safe, Step, Enabled, KeepsOp;
    match e
    case Publish(i, op) => PublishKeeps(m, s, i, op, o);
    case Record(i, k) => RecordKeeps(m, s, i, k, o);
    case SendAll(i, k) => SendKeeps(m, s, i, k, o);
    case Join(_) => WireStepKeeps(m, s, e, o);
    case Snapshot(_) => WireStepKeeps(m, s, e, o);
    case CatchUp(_) => WireStepKeeps(m, s, e, o);
    case Deliver(h) => DeliverKeeps(m, s, h, o);
  }

  // ---- runs ----

  lemma SafeStep(m: Mesh, s: Net, e: Event)
    requires Safe(m, s) && Enabled(m, s, e)
    ensures Safe(m, Step(m, s, e))
  {
    StepKeeps(m, s, e, Op(0, 0, ""));
  }

  lemma {:induction false} SafeRun(m: Mesh, s: Net, events: seq<Event>, t: Net)
    requires Safe(m, s) && Run(m, s, events, t)
    ensures Safe(m, t)
    decreases |events|
  {
    if events != [] {
      hide Step, Safe;
      SafeStep(m, s, events[0]);
      SafeRun(m, Step(m, s, events[0]), events[1..], t);
    }
  }

  /** No node accepts two ops with one clock, and nothing that was not published, in a run of any length. */
  lemma AcceptedAtMostOnce(m: Mesh, events: seq<Event>, t: Net, i: nat)
    requires ValidMesh(m) && Run(m, Initial(m), events, t) && i < m.size
    ensures |t.nodes| == m.size && forall o :: o in t.nodes[i].log ==> o in t.published
    ensures forall a, b :: 0 <= a < b < |t.nodes[i].log| ==>
              || t.nodes[i].log[a].counter != t.nodes[i].log[b].counter
              || t.nodes[i].log[a].origin != t.nodes[i].log[b].origin
  {
    InitialSafe(m);
    SafeRun(m, Initial(m), events, t);
    assert NodeOk(t.nodes[i], t.published);
    forall a, b | 0 <= a < b < |t.nodes[i].log|
      ensures t.nodes[i].log[a].counter != t.nodes[i].log[b].counter
           || t.nodes[i].log[a].origin != t.nodes[i].log[b].origin
    {
      assert !SameClock(t.nodes[i].log[a], t.nodes[i].log[b]);
    }
  }

  // ---- whom a node listens to ----

  /** A node holds its own ops and those of the origins it was told to trust. */
  ghost predicate Trusting(m: Mesh, s: Net)
    requires Shape(m, s)
  {
    forall i, o :: 0 <= i < m.size && o in s.nodes[i].log ==>
      o.origin == i || m.allow[i].None? || o.origin in m.allow[i].value
  }

  lemma TrustingStep(m: Mesh, s: Net, e: Event)
    requires Shape(m, s) && Enabled(m, s, e) && Trusting(m, s)
    ensures Trusting(m, Step(m, s, e))
  {
    var t := Step(m, s, e);
    if e.Deliver? {
      assert ValidHalf(m, m.halves[e.half], e.half);
    }
    forall i, o | 0 <= i < m.size && o in t.nodes[i].log
      ensures o.origin == i || m.allow[i].None? || o.origin in m.allow[i].value
    {
      if o !in s.nodes[i].log {
        assert e.Publish? || e.Deliver?;
      }
    }
  }

  lemma {:induction false} TrustingRun(m: Mesh, s: Net, events: seq<Event>, t: Net)
    requires Shape(m, s) && Run(m, s, events, t) && Trusting(m, s)
    ensures Trusting(m, t)
    decreases |events|
  {
    if events != [] {
      hide Step, Enabled, Trusting;
      TrustingStep(m, s, events[0]);
      TrustingRun(m, Step(m, s, events[0]), events[1..], t);
    }
  }

  /** In a run of any length no node takes over an op from outside its allowlist. */
  lemma TrustedOnly(m: Mesh, events: seq<Event>, t: Net, i: nat, op: Op)
    requires ValidMesh(m) && Run(m, Initial(m), events, t) && i < m.size
    ensures |t.nodes| == m.size
    ensures op in t.nodes[i].log ==> op.origin == i || m.allow[i].None? || op.origin in m.allow[i].value
  {
    TrustingRun(m, Initial(m), events, t);
  }

  /** In the whole run the first catch-up of the direction is in time for the op. */
  ghost predicate InTimeRun(m: Mesh, s: Net, events: seq<Event>, h: nat, o: Op)
    requires Shape(m, s) && h < |m.halves|
    decreases |events|
  {
    events != [] && Enabled(m, s, events[0]) ==>
      InTime(m, s, events[0], h, o) && InTimeRun(m, Step(m, s, events[0]), events[1..], h, o)
  }

  lemma {:induction false} OpSafeRun(m: Mesh, s: Net, events: seq<Event>, t: Net, h: nat, o: Op)
    requires Safe(m, s) && Run(m, s, events, t)
    requires h < |m.halves| && OpSafe(m, s, h, o) && InTimeRun(m, s, events, h, o)
    ensures Safe(m, t) && OpSafe(m, t, h, o)
    decreases |events|
  {
    if events != [] {
      hide Step, OpSafe, InTime, Enabled;
      StepKeeps(m, s, events[0], o);
      OpSafeRun(m, Step(m, s, events[0]), events[1..], t, h, o);
    }
  }

  /** In a run of any length: on a direction of a link whose catch-up has been cut, in time for the op, an op of the
      sending end is with the receiver, on the wire, in the catch-up, still to be sent by its thread, or refused. */
  lemma NoOpLost(m: Mesh, events: seq<Event>, t: Net, h: nat, o: Op)
    requires ValidMesh(m) && Run(m, Initial(m), events, t)
    requires h < |m.halves| && InTimeRun(m, Initial(m), events, h, o) && t.wires[h].snaps > 0
    requires m.halves[h].from < m.size && m.halves[h].to < m.size && o in t.nodes[m.halves[h].from].log
    ensures OnItsWay(m, m.halves[h].to, h, t.nodes[m.halves[h].from], t.nodes[m.halves[h].to], t.wires[h], o)
  {
    InitialSafe(m);
    OpSafeRun(m, Initial(m), events, t, h, o);
  }

  /** A simple way to be in time: fewer ops recorded at every node than the history holds, up to the end. */
  ghost predicate WithinHistory(s: Net) {
    forall i :: 0 <= i < |s.nodes| ==> |s.nodes[i].recorded| <= 256
  }

  lemma RecordedGrows(m: Mesh, s: Net, e: Event, i: nat)
    requires Shape(m, s) && Enabled(m, s, e) && i < m.size
    ensures |s.nodes[i].recorded| <= |Step(m, s, e).nodes[i].recorded|
  {
  }

  lemma {:induction false} ShortRunInTime(m: Mesh, s: Net, events: seq<Event>, t: Net, h: nat, o: Op)
    requires Shape(m, s) && Run(m, s, events, t) && WithinHistory(t) && h < |m.halves|
    ensures WithinHistory(s) && InTimeRun(m, s, events, h, o)
    decreases |events|
  {
    hide Step, Enabled;
    if events != [] {
      ShortRunInTime(m, Step(m, s, events[0]), events[1..], t, h, o);
      forall i | 0 <= i < m.size
        ensures |s.nodes[i].recorded| <= 256
      {
        RecordedGrows(m, s, events[0], i);
      }
      assert ValidHalf(m, m.halves[h], h);
    }
  }

  // ---- when everything has settled ----

  /** All links have joined and nothing is left to record or to send. */
  ghost predicate Settled(s: Net) {
    && (forall i :: 0 <= i < |s.nodes| ==> s.nodes[i].tasks == [])
    && (forall h :: 0 <= h < |s.wires| ==> s.wires[h].snaps > 0 && s.wires[h].catchup == [] && s.wires[h].frames == [])
  }

  predicate Linked(m: Mesh, i: nat, j: nat) {
    exists h :: 0 <= h < |m.halves| && m.halves[h].from == i && m.halves[h].to == j
  }

  predicate Path(m: Mesh, p: seq<nat>) {
    |p| > 0 && forall k :: 0 <= k < |p| - 1 ==> Linked(m, p[k], p[k + 1])
  }

  ghost predicate Connected(m: Mesh) {
    forall i, j :: 0 <= i < m.size && 0 <= j < m.size ==> PathBetween(m, i, j)
  }

  ghost predicate PathBetween(m: Mesh, i: nat, j: nat) {
    exists p :: Path(m, p) && p[0] == i && p[|p| - 1] == j
  }

  ghost predicate AllAllowed(m: Mesh, published: seq<Op>)
    requires |m.allow| == m.size
  {
    forall j, o :: 0 <= j < m.size && o in published ==> m.allow[j].None? || o.origin in m.allow[j].value
  }

  lemma SettledLink(m: Mesh, s: Net, i: nat, j: nat, o: Op)
    requires Safe(m, s) && Settled(s) && AllAllowed(m, s.published) && Linked(m, i, j)
    requires forall h :: 0 <= h < |m.halves| ==> OpSafe(m, s, h, o)
    requires i < m.size && j < m.size && o in s.nodes[i].log
    ensures o in s.nodes[j].log
  {
    var h :| 0 <= h < |m.halves| && m.halves[h].from == i && m.halves[h].to == j;
    assert OpSafe(m, s, h, o);
    assert NodeOk(s.nodes[i], s.published);
    assert OnItsWay(m, j, h, s.nodes[i], s.nodes[j], s.wires[h], o);
  }

  lemma {:induction false} SettledPath(m: Mesh, s: Net, p: seq<nat>, o: Op)
    requires Safe(m, s) && Settled(s) && AllAllowed(m, s.published) && Path(m, p)
    requires forall h :: 0 <= h < |m.halves| ==> OpSafe(m, s, h, o)
    requires p[0] < m.size && o in s.nodes[p[0]].log
    ensures p[|p| - 1] < m.size && o in s.nodes[p[|p| - 1]].log
    decreases |p|
  {
    hide OpSafe, Safe, Settled, AllAllowed, Linked;
    if |p| > 1 {
      assert Linked(m, p[0], p[1]);
      LinkedInside(m, s, p[0], p[1]);
      SettledLink(m, s, p[0], p[1], o);
      assert Path(m, p[1..]) by {
        forall k | 0 <= k < |p[1..]| - 1
          ensures Linked(m, p[1..][k], p[1..][k + 1])
        {
          assert Linked(m, p[k + 1], p[k + 2]);
        }
      }
      SettledPath(m, s, p[1..], o);
    }
  }

  lemma LinkedInside(m: Mesh, s: Net, i: nat, j: nat)
    requires Safe(m, s) && Linked(m, i, j)
    ensures i < m.size && j < m.size
  {
    var h :| 0 <= h < |m.halves| && m.halves[h].from == i && m.halves[h].to == j;
    assert ValidHalf(m, m.halves[h], h);
  }

  /** In a connected mesh that has settled, every node holds exactly the published ops, provided every first catch-up
      was in time for them. */
  lemma Converged(m: Mesh, events: seq<Event>, t: Net, i: nat, o: Op)
    requires ValidMesh(m) && Run(m, Initial(m), events, t)
    requires forall h :: 0 <= h < |m.halves| ==> InTimeRun(m, Initial(m), events, h, o)
    requires Connected(m) && Settled(t) && AllAllowed(m, t.published) && i < m.size
    ensures |t.nodes| == m.size && (o in t.nodes[i].log <==> o in t.published)
  {
    InitialSafe(m);
    SafeRun(m, Initial(m), events, t);
    forall h | 0 <= h < |m.halves|
      ensures OpSafe(m, t, h, o)
    {
      OpSafeRun(m, Initial(m), events, t, h, o);
    }
    hide InTimeRun, Run, OpSafe, Step;
    assert NodeOk(t.nodes[i], t.published);
    if o in t.published {
      assert PathBetween(m, o.origin, i);
      var p :| Path(m, p) && p[0] == o.origin && p[|p| - 1] == i;
      SettledPath(m, t, p, o);
    }
  }
}
