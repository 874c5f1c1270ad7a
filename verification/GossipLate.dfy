/** Two nodes that link up late: exactly the newest 256 ops make it across. */
module GossipLate {
  import opened Prelude
  import opened GossipNet
  import opened GossipRuns

  /** Two nodes and one link, everything allowed. */
  function Pair(): Mesh {
    Mesh(2, [Half(0, 1, 1), Half(1, 0, 0)], [None, None], 2)
  }

  lemma PairValid()
    ensures ValidMesh(Pair())
  {
  }

  /** The first n ops of node 0. */
  function Ops(n: nat): (ops: seq<Op>)
    ensures |ops| == n
    ensures forall i :: 0 <= i < n ==> ops[i] == Op(i, 0, "")
  {
    if n == 0 then [] else Ops(n - 1) + [Op(n - 1, 0, "")]
  }

  lemma {:induction false} RunAppend(m: Mesh, s: Net, first: seq<Event>, t: Net, second: seq<Event>, u: Net)
    requires Shape(m, s) && Run(m, s, first, t) && Run(m, t, second, u)
    ensures Run(m, s, first + second, u)
    decreases |first|
  {
    hide Step, Enabled;
    if first == [] {
      assert [] + second == second;
    } else {
      RunAppend(m, Step(m, s, first[0]), first[1..], t, second, u);
      assert (first + second)[1..] == first[1..] + second;
    }
  }

  lemma RunOne(m: Mesh, s: Net, e: Event)
    requires Shape(m, s) && Enabled(m, s, e)
    ensures Run(m, s, [e], Step(m, s, e))
  {
    hide Step, Enabled;
    assert Run(m, Step(m, s, e), [], Step(m, s, e));
    assert [e][1..] == [];
  }

  /** One more event at the end of a run. */
  lemma RunMore(m: Mesh, s: Net, events: seq<Event>, t: Net, e: Event)
    requires Shape(m, s) && Run(m, s, events, t) && Enabled(m, t, e)
    ensures Run(m, s, events + [e], Step(m, t, e))
  {
    hide Step, Enabled;
    RunOne(m, t, e);
    RunAppend(m, s, events, t, [e], Step(m, t, e));
  }

  // ---- steps of nodes with at most one task ----

  lemma OneAccepts(log: seq<Op>, recorded: seq<Op>, op: Op, source: Option<nat>)
    ensures Accept(Node(log, recorded, []), op, source) == Node(log + [op], recorded, [Task(op, source, false)])
  {
    assert [] + [Task(op, source, false)] == [Task(op, source, false)];
  }

  lemma OneRecords(log: seq<Op>, recorded: seq<Op>, t: Task)
    ensures RecordTask(Node(log, recorded, [t]), 0) == Node(log, recorded + [t.op], [t.(recorded := true)])
  {
    assert [t][0 := t.(recorded := true)] == [t.(recorded := true)];
  }

  lemma OneSends(t: Task)
    ensures Without([t], 0) == []
  {
  }

  lemma TwoUpdate<T>(a: T, b: T, c: T)
    ensures [a, b][0 := c] == [c, b] && [a, b][1 := c] == [a, c]
  {
  }

  /** Node 0 alone with n ops published, recorded and sent to nobody. */
  function Alone(n: nat): Net {
    Net([Node(Ops(n), Ops(n), []), Node([], [], [])], [Wire(false, 0, [], []), Wire(false, 0, [], [])], Ops(n))
  }

  /** Node 0 alone, in the middle of its n-th publication. */
  function Publishing(n: nat, recorded: bool): Net
    requires n > 0
  {
    Net([Node(Ops(n), if recorded then Ops(n) else Ops(n - 1), [Task(Op(n - 1, 0, ""), None, recorded)]),
         Node([], [], [])],
        [Wire(false, 0, [], []), Wire(false, 0, [], [])], Ops(n))
  }

  lemma PublishStep(n: nat)
    requires n > 0
    ensures ValidMesh(Pair()) && Enabled(Pair(), Alone(n - 1), Publish(0, Op(n - 1, 0, "")))
    ensures Step(Pair(), Alone(n - 1), Publish(0, Op(n - 1, 0, ""))) == Publishing(n, false)
  {
    PairValid();
    var op := Op(n - 1, 0, "");
    assert Ops(n) == Ops(n - 1) + [op];
    OneAccepts(Ops(n - 1), Ops(n - 1), op, None);
    hide Ops, Accept;
    TwoUpdate(Alone(n - 1).nodes[0], Alone(n - 1).nodes[1], Publishing(n, false).nodes[0]);
  }

  lemma RecordStep(n: nat)
    requires n > 0
    ensures ValidMesh(Pair()) && Enabled(Pair(), Publishing(n, false), Record(0, 0))
    ensures Step(Pair(), Publishing(n, false), Record(0, 0)) == Publishing(n, true)
  {
    PairValid();
    assert Ops(n) == Ops(n - 1) + [Op(n - 1, 0, "")];
    OneRecords(Ops(n), Ops(n - 1), Task(Op(n - 1, 0, ""), None, false));
    hide Ops, RecordTask;
    var s := Publishing(n, false);
    TwoUpdate(s.nodes[0], s.nodes[1], Publishing(n, true).nodes[0]);
  }

  lemma SendStep(n: nat)
    requires n > 0
    ensures ValidMesh(Pair()) && Enabled(Pair(), Publishing(n, true), SendAll(0, 0))
    ensures Step(Pair(), Publishing(n, true), SendAll(0, 0)) == Alone(n)
  {
    PairValid();
    hide Ops;
    var s := Publishing(n, true);
    OneSends(s.nodes[0].tasks[0]);
    TwoUpdate(s.nodes[0], s.nodes[1], Alone(n).nodes[0]);
    assert Step(Pair(), s, SendAll(0, 0)).wires == Alone(n).wires;
  }

  lemma {:induction false} PublishAlone(n: nat) returns (events: seq<Event>)
    ensures ValidMesh(Pair()) && Shape(Pair(), Initial(Pair()))
    ensures Run(Pair(), Initial(Pair()), events, Alone(n))
  {
    PairValid();
    if n == 0 {
      events := [];
      assert Initial(Pair()) == Alone(0);
    } else {
      hide Step, Enabled, Publishing, Ops;
      events := PublishAlone(n - 1);
      PublishStep(n);
      RecordStep(n);
      SendStep(n);
      var e := Publish(0, Op(n - 1, 0, ""));
      RunMore(Pair(), Initial(Pair()), events, Alone(n - 1), e);
      RunMore(Pair(), Initial(Pair()), events + [e], Publishing(n, false), Record(0, 0));
      RunMore(Pair(), Initial(Pair()), events + [e] + [Record(0, 0)], Publishing(n, true), SendAll(0, 0));
      events := events + [e] + [Record(0, 0)] + [SendAll(0, 0)];
    }
  }

  /** Joined, both catch-ups cut; node 1 has the first k of the late ops that go across. */
  function Joined(all: seq<Op>, late: seq<Op>, k: nat): Net
    requires k <= |late|
  {
    Net([Node(all, all, []), Node(late[..k], late[..k], [])],
        [Wire(true, 1, late[k..], []), Wire(true, 1, [], [])], all)
  }

  lemma JoinStep(n: nat) returns (events: seq<Event>)
    ensures ValidMesh(Pair()) && Shape(Pair(), Alone(n))
    ensures Run(Pair(), Alone(n), events, Joined(Ops(n), Newest(Ops(n)), 0))
  {
    PairValid();
    hide Newest;
    var s := Alone(n);
    var a := Step(Pair(), s, Join(0));
    var b := Step(Pair(), a, Join(1));
    var c := Step(Pair(), b, Snapshot(0));
    var d := Step(Pair(), c, Snapshot(1));
    RunOne(Pair(), s, Join(0));
    RunMore(Pair(), s, [Join(0)], a, Join(1));
    RunMore(Pair(), s, [Join(0)] + [Join(1)], b, Snapshot(0));
    RunMore(Pair(), s, [Join(0)] + [Join(1)] + [Snapshot(0)], c, Snapshot(1));
    events := [Join(0)] + [Join(1)] + [Snapshot(0)] + [Snapshot(1)];
    NewestNone();
    var late := Newest(Ops(n));
    assert late[0..] == late;
    assert d.wires == Joined(Ops(n), late, 0).wires;
  }

  lemma NewestNone()
    ensures Newest([]) == []
  {
  }

  /** The k-th late op between the two: on the wire, accepted, or recorded. */
  function Crossing(all: seq<Op>, late: seq<Op>, k: nat, stage: nat): Net
    requires k < |late| && stage < 3
  {
    var frames := if stage == 0 then [late[k]] else [];
    var receiver :=
      if stage == 0 then Node(late[..k], late[..k], [])
      else Node(late[..k + 1], late[..if stage == 2 then k + 1 else k], [Task(late[k], Some(1), stage == 2)]);
    Net([Node(all, all, []), receiver], [Wire(true, 1, late[k + 1..], frames), Wire(true, 1, [], [])], all)
  }

  lemma CrossSend(all: seq<Op>, late: seq<Op>, k: nat)
    requires k < |late|
    ensures ValidMesh(Pair()) && Enabled(Pair(), Joined(all, late, k), CatchUp(0))
    ensures Step(Pair(), Joined(all, late, k), CatchUp(0)) == Crossing(all, late, k, 0)
  {
    PairValid();
    var s, t := Joined(all, late, k), Crossing(all, late, k, 0);
    assert late[k..][1..] == late[k + 1..] && [] + [late[k]] == [late[k]];
    TwoUpdate(s.wires[0], s.wires[1], t.wires[0]);
  }

  lemma CrossAccept(all: seq<Op>, late: seq<Op>, k: nat)
    requires k < |late| && forall i :: 0 <= i < k ==> late[i].counter != late[k].counter
    ensures ValidMesh(Pair()) && Enabled(Pair(), Crossing(all, late, k, 0), Deliver(0))
    ensures Step(Pair(), Crossing(all, late, k, 0), Deliver(0)) == Crossing(all, late, k, 1)
  {
    PairValid();
    var s, t := Crossing(all, late, k, 0), Crossing(all, late, k, 1);
    assert !Knows(s.nodes[1], late[k]);
    OneAccepts(late[..k], late[..k], late[k], Some(1));
    assert late[..k] + [late[k]] == late[..k + 1];
    hide Accept, Knows;
    TwoUpdate(s.nodes[0], s.nodes[1], t.nodes[1]);
    TwoUpdate(s.wires[0], s.wires[1], t.wires[0]);
    assert [late[k]][1..] == [];
  }

  lemma CrossRecord(all: seq<Op>, late: seq<Op>, k: nat)
    requires k < |late|
    ensures ValidMesh(Pair()) && Enabled(Pair(), Crossing(all, late, k, 1), Record(1, 0))
    ensures Step(Pair(), Crossing(all, late, k, 1), Record(1, 0)) == Crossing(all, late, k, 2)
  {
    PairValid();
    var s, t := Crossing(all, late, k, 1), Crossing(all, late, k, 2);
    OneRecords(late[..k + 1], late[..k], s.nodes[1].tasks[0]);
    assert late[..k] + [late[k]] == late[..k + 1];
    hide RecordTask;
    TwoUpdate(s.nodes[0], s.nodes[1], t.nodes[1]);
  }

  lemma CrossRelay(all: seq<Op>, late: seq<Op>, k: nat)
    requires k < |late|
    ensures ValidMesh(Pair()) && Enabled(Pair(), Crossing(all, late, k, 2), SendAll(1, 0))
    ensures Step(Pair(), Crossing(all, late, k, 2), SendAll(1, 0)) == Joined(all, late, k + 1)
  {
    PairValid();
    var s, t := Crossing(all, late, k, 2), Joined(all, late, k + 1);
    OneSends(s.nodes[1].tasks[0]);
    TwoUpdate(s.nodes[0], s.nodes[1], t.nodes[1]);
    assert Step(Pair(), s, SendAll(1, 0)).wires == t.wires;
  }

  lemma {:induction false} Cross(all: seq<Op>, late: seq<Op>, k: nat) returns (events: seq<Event>)
    requires k <= |late| && forall i, j :: 0 <= i < j < |late| ==> late[i].counter != late[j].counter
    ensures ValidMesh(Pair()) && Shape(Pair(), Joined(all, late, 0))
    ensures Run(Pair(), Joined(all, late, 0), events, Joined(all, late, k))
  {
    hide Step, Enabled, Joined, Crossing;
    PairValid();
    if k == 0 {
      events := [];
      JoinedShape(all, late);
    } else {
      events := Cross(all, late, k - 1);
      CrossSend(all, late, k - 1);
      CrossAccept(all, late, k - 1);
      CrossRecord(all, late, k - 1);
      CrossRelay(all, late, k - 1);
      var s := Joined(all, late, 0);
      RunMore(Pair(), s, events, Joined(all, late, k - 1), CatchUp(0));
      RunMore(Pair(), s, events + [CatchUp(0)], Crossing(all, late, k - 1, 0), Deliver(0));
      RunMore(Pair(), s, events + [CatchUp(0)] + [Deliver(0)], Crossing(all, late, k - 1, 1), Record(1, 0));
      RunMore(Pair(), s, events + [CatchUp(0)] + [Deliver(0)] + [Record(1, 0)],
              Crossing(all, late, k - 1, 2), SendAll(1, 0));
      events := events + [CatchUp(0)] + [Deliver(0)] + [Record(1, 0)] + [SendAll(1, 0)];
    }
  }

  lemma JoinedShape(all: seq<Op>, late: seq<Op>)
    ensures ValidMesh(Pair()) && Shape(Pair(), Joined(all, late, 0))
  {
    PairValid();
  }

  /** Settled, and the late node holds everything published if and only if that was at most 256 ops. */
  lemma LateJoiner(n: nat) returns (events: seq<Event>, t: Net)
    ensures ValidMesh(Pair()) && Run(Pair(), Initial(Pair()), events, t) && Settled(t)
    ensures t.published == Ops(n) && t.nodes[1].log == if n <= 256 then Ops(n) else Ops(n)[n - 256..]
    ensures (forall o :: o in t.published ==> o in t.nodes[1].log) <==> n <= 256
  {
    PairValid();
    var late := Newest(Ops(n));
    t := Joined(Ops(n), late, |late|);
    var publish := PublishAlone(n);
    var join := JoinStep(n);
    NewestDistinct(n);
    assert late == if n <= 256 then Ops(n) else Ops(n)[n - 256..];
    hide Newest, Ops, Joined, Settled, Alone;
    var cross := Cross(Ops(n), late, |late|);
    hide Step, Enabled;
    RunAppend(Pair(), Initial(Pair()), publish, Alone(n), join, Joined(Ops(n), late, 0));
    RunAppend(Pair(), Initial(Pair()), publish + join, Joined(Ops(n), late, 0), cross, t);
    events := publish + join + cross;
    CrossedAll(Ops(n), late);
    NewestComplete(n);
  }

  lemma CrossedAll(all: seq<Op>, late: seq<Op>)
    ensures
      var t := Joined(all, late, |late|);
      Settled(t) && |t.nodes| == 2 && t.nodes[1].log == late && t.published == all
  {
    assert late[..|late|] == late && late[|late|..] == [];
  }

  lemma NewestDistinct(n: nat)
    ensures forall i, j :: 0 <= i < j < |Newest(Ops(n))| ==> Newest(Ops(n))[i].counter != Newest(Ops(n))[j].counter
  {
  }

  lemma NewestComplete(n: nat)
    ensures (forall o :: o in Ops(n) ==> o in Newest(Ops(n))) <==> n <= 256
  {
    if n > HISTORY_MAX {
      var first := Op(0, 0, "");
      assert Ops(n)[0] == first && first in Ops(n);
      assert first !in Newest(Ops(n));
    }
  }
}
