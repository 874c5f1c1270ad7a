/** The work left in a mesh: relaying ends, and it ends settled. */
module GossipWork {
  import opened Prelude
  import opened GossipNet
  import opened GossipInvariant
  import opened GossipRuns

  // ---- settling ----

  function SumOf(a: seq<nat>): nat {
    if a == [] then 0 else a[0] + SumOf(a[1..])
  }

  lemma {:induction false} SumUpdate(a: seq<nat>, i: nat, x: nat)
    requires i < |a|
    ensures SumOf(a[i := x]) + a[i] == SumOf(a) + x
  {
    if i > 0 {
      SumUpdate(a[1..], i - 1, x);
      assert a[i := x][1..] == a[1..][i - 1 := x];
    } else {
      assert a[i := x][1..] == a[1..];
    }
  }

  lemma {:induction false} SumBound(a: seq<nat>, b: seq<nat>)
    requires |a| == |b| && forall i :: 0 <= i < |a| ==> b[i] <= a[i] + 1
    ensures SumOf(b) <= SumOf(a) + |a|
  {
    if a != [] { SumBound(a[1..], b[1..]); }
  }

  /** A task still has to be recorded and to go out on every wire. */
  function TaskWork(wires: nat, t: Task): nat {
    if t.recorded then wires + 1 else wires + 2
  }

  function TasksWork(wires: nat, tasks: seq<Task>): seq<nat> {
    seq(|tasks|, k requires 0 <= k < |tasks| => TaskWork(wires, tasks[k]))
  }

  function Missing(n: Node, published: nat): nat {
    if published > |n.log| then published - |n.log| else 0
  }

  function NodeWork(wires: nat, published: nat, n: Node): nat {
    (wires + 2) * Missing(n, published) + SumOf(TasksWork(wires, n.tasks))
  }

  function WireWork(catchUps: nat, w: Wire): nat {
    (if w.joined then 0 else 1) + (2 * HISTORY_MAX + 1) * (if w.snaps < catchUps then catchUps - w.snaps else 0)
    + 2 * |w.catchup| + |w.frames|
  }

  function NodesWork(wires: nat, s: Net): (a: seq<nat>)
    ensures |a| == |s.nodes|
  {
    seq(|s.nodes|, i requires 0 <= i < |s.nodes| => NodeWork(wires, |s.published|, s.nodes[i]))
  }

  function WiresWork(catchUps: nat, wires: seq<Wire>): (a: seq<nat>)
    ensures |a| == |wires|
  {
    seq(|wires|, h requires 0 <= h < |wires| => WireWork(catchUps, wires[h]))
  }

  /** The steps that are left until something new is published. */
  function Work(m: Mesh, s: Net): nat {
    SumOf(NodesWork(|s.wires|, s)) + SumOf(WiresWork(m.catchUps, s.wires))
  }

  function OpSet(log: seq<Op>): set<Op> {
    set o | o in log
  }

  lemma {:induction false} DistinctLog(log: seq<Op>)
    requires AcceptedOnce(log)
    ensures |OpSet(log)| == |log|
  {
    if log != [] {
      var n := |log| - 1;
      DistinctLog(log[..n]);
      assert log == log[..n] + [log[n]];
      assert OpSet(log) == OpSet(log[..n]) + {log[n]};
    }
  }

  lemma {:induction false} SetOfLog(log: seq<Op>)
    ensures |OpSet(log)| <= |log|
  {
    if log != [] {
      var n := |log| - 1;
      SetOfLog(log[..n]);
      assert log == log[..n] + [log[n]];
      assert OpSet(log) == OpSet(log[..n]) + {log[n]};
    }
  }

  lemma Subset(a: set<Op>, b: set<Op>)
    requires a <= b
    ensures |a| <= |b|
  {
    assert b == a + (b - a);
  }

  /** An op that is new to a node leaves it fewer to accept. */
  lemma NewOpMissing(n: Node, published: seq<Op>, op: Op)
    requires NodeOk(n, published) && op in published && !Knows(n, op)
    ensures |n.log| < |published|
  {
    var more := n.log + [op];
    assert AcceptedOnce(more);
    DistinctLog(more);
    SetOfLog(published);
    forall o | o in OpSet(more)
      ensures o in OpSet(published)
    {
      assert o in n.log || o == op;
    }
    Subset(OpSet(more), OpSet(published));
  }

  lemma {:induction false} SumAppend(a: seq<nat>, x: nat)
    ensures SumOf(a + [x]) == SumOf(a) + x
  {
    if a == [] {
      assert [] + [x] == [x];
    } else {
      SumAppend(a[1..], x);
      assert (a + [x])[1..] == a[1..] + [x];
    }
  }

  lemma {:induction false} SumWithout(a: seq<nat>, k: nat)
    requires k < |a|
    ensures SumOf(Without(a, k)) + a[k] == SumOf(a)
  {
    if k == 0 {
      assert Without(a, 0) == a[1..];
    } else {
      SumWithout(a[1..], k - 1);
      assert Without(a, k)[1..] == Without(a[1..], k - 1);
    }
  }

  lemma AcceptWork(wires: nat, published: seq<Op>, n: Node, op: Op, source: Option<nat>)
    requires NodeOk(n, published) && op in published && !Knows(n, op)
    ensures NodeWork(wires, |published|, Accept(n, op, source)) == NodeWork(wires, |published|, n)
  {
    hide NodeOk;
    NewOpMissing(n, published, op);
    var n' := Accept(n, op, source);
    assert TasksWork(wires, n'.tasks) == TasksWork(wires, n.tasks) + [wires + 2];
    SumAppend(TasksWork(wires, n.tasks), wires + 2);
    var x := Missing(n, |published|);
    assert (wires + 2) * x == (wires + 2) * (x - 1) + (wires + 2);
  }

  lemma RecordWork(wires: nat, published: nat, n: Node, k: nat)
    requires k < |n.tasks| && !n.tasks[k].recorded
    ensures NodeWork(wires, published, RecordTask(n, k)) < NodeWork(wires, published, n)
  {
    var n' := RecordTask(n, k);
    assert TasksWork(wires, n'.tasks) == TasksWork(wires, n.tasks)[k := wires + 1];
    SumUpdate(TasksWork(wires, n.tasks), k, wires + 1);
  }

  lemma SendWork(wires: nat, published: nat, n: Node, k: nat)
    requires k < |n.tasks| && n.tasks[k].recorded
    ensures NodeWork(wires, published, n.(tasks := Without(n.tasks, k))) + wires < NodeWork(wires, published, n)
  {
    var n' := n.(tasks := Without(n.tasks, k));
    assert TasksWork(wires, n'.tasks) == Without(TasksWork(wires, n.tasks), k);
    SumWithout(TasksWork(wires, n.tasks), k);
  }

  lemma NodeStepWork(m: Mesh, s: Net, e: Event)
    requires Safe(m, s) && Enabled(m, s, e) && (e.Record? || e.SendAll?)
    ensures Work(m, Step(m, s, e)) < Work(m, s)
  {
    hide NodeWork, WireWork, SumOf;
    var t, i, n := Step(m, s, e), e.node, |s.wires|;
    var a := NodesWork(n, s);
    assert NodesWork(n, t) == a[i := NodeWork(n, |s.published|, t.nodes[i])];
    SumUpdate(a, i, NodeWork(n, |s.published|, t.nodes[i]));
    if e.Record? {
      RecordWork(n, |s.published|, s.nodes[i], e.task);
    } else {
      SendWork(n, |s.published|, s.nodes[i], e.task);
      SentWork(m, s.wires, i, s.nodes[i].tasks[e.task]);
      SumBound(WiresWork(m.catchUps, s.wires), WiresWork(m.catchUps, t.wires));
    }
  }

  lemma SentWork(m: Mesh, wires: seq<Wire>, i: nat, task: Task)
    requires |wires| == |m.halves|
    ensures forall h :: 0 <= h < |wires| ==>
      WireWork(m.catchUps, SendTo(m, wires, i, task)[h]) <= WireWork(m.catchUps, wires[h]) + 1
  {
  }

  lemma WireStepWork(m: Mesh, s: Net, e: Event)
    requires Safe(m, s) && Enabled(m, s, e) && (e.Join? || e.Snapshot? || e.CatchUp?)
    ensures Work(m, Step(m, s, e)) < Work(m, s)
  {
    hide NodeWork, SumOf;
    var t, h := Step(m, s, e), e.half;
    assert NodesWork(|t.wires|, t) == NodesWork(|s.wires|, s);
    var b := WiresWork(m.catchUps, s.wires);
    assert WiresWork(m.catchUps, t.wires) == b[h := WireWork(m.catchUps, t.wires[h])];
    SumUpdate(b, h, WireWork(m.catchUps, t.wires[h]));
  }

  lemma DeliverWork(m: Mesh, s: Net, h: nat)
    requires Safe(m, s) && Enabled(m, s, Deliver(h))
    ensures Work(m, Step(m, s, Deliver(h))) < Work(m, s)
  {
    hide NodeOk, SumOf, NodeWork, Accept;
    FrameLogged(m, s, h);
    var t, n, j := Step(m, s, Deliver(h)), |s.wires|, m.halves[h].to;
    var a, b := NodesWork(n, s), WiresWork(m.catchUps, s.wires);
    var op := s.wires[h].frames[0];
    if Allowed(m, j, op.origin) && !Knows(s.nodes[j], op) {
      AcceptWork(n, s.published, s.nodes[j], op, Some(m.halves[h].twin));
    }
    assert NodeWork(n, |s.published|, t.nodes[j]) == a[j];
    assert NodesWork(n, t) == a;
    assert WiresWork(m.catchUps, t.wires) == b[h := WireWork(m.catchUps, t.wires[h])];
    SumUpdate(b, h, WireWork(m.catchUps, t.wires[h]));
  }

  /** Every step but a publication uses up work. */
  lemma StepWork(m: Mesh, s: Net, e: Event)
    requires Safe(m, s) && Enabled(m, s, e) && !e.Publish?
    ensures Work(m, Step(m, s, e)) < Work(m, s)
  {
    hide Safe, Step, Enabled, Work;
    match e
    case Record(_, _) => NodeStepWork(m, s, e);
    case SendAll(_, _) => NodeStepWork(m, s, e);
    case Join(_) => WireStepWork(m, s, e);
    case Snapshot(_) => WireStepWork(m, s, e);
    case CatchUp(_) => WireStepWork(m, s, e);
    case Deliver(h) => DeliverWork(m, s, h);
  }

  /** Relaying ends: without new publications a run is no longer than the work left. */
  lemma {:induction false} RelayingEnds(m: Mesh, s: Net, events: seq<Event>, t: Net)
    requires Safe(m, s) && Run(m, s, events, t)
    requires forall i :: 0 <= i < |events| ==> !events[i].Publish?
    ensures |events| + Work(m, t) <= Work(m, s)
    decreases |events|
  {
    assert Shape(m, s);
    hide Step, Work, Enabled, Safe;
    if events != [] {
      SafeStep(m, s, events[0]);
      StepWork(m, s, events[0]);
      RelayingEnds(m, Step(m, s, events[0]), events[1..], t);
    }
  }

  /** And where no step is left but publishing, everything has settled. */
  lemma StuckIsSettled(m: Mesh, s: Net)
    requires Safe(m, s) && forall e: Event :: !e.Publish? ==> !Enabled(m, s, e)
    ensures Settled(s)
  {
    forall i | 0 <= i < m.size
      ensures s.nodes[i].tasks == []
    {
      assert !Enabled(m, s, Record(i, 0)) && !Enabled(m, s, SendAll(i, 0));
    }
    forall h | 0 <= h < |m.halves|
      ensures s.wires[h].snaps > 0 && s.wires[h].catchup == [] && s.wires[h].frames == []
    {
      assert ValidHalf(m, m.halves[h], h);
      assert !Enabled(m, s, Join(h)) && !Enabled(m, s, Join(m.halves[h].twin));
      assert !Enabled(m, s, CatchUp(h)) && !Enabled(m, s, Snapshot(h)) && !Enabled(m, s, Deliver(h));
    }
  }
}
