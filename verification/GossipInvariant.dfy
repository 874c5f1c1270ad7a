/** What every run of the gossip keeps: no op is lost, not even while a link joins. */
module GossipInvariant {
  import opened Prelude
  import opened GossipNet

  // ---- one node ----

  ghost predicate AcceptedOnce(log: seq<Op>) {
    forall a, b :: 0 <= a < b < |log| ==> !SameClock(log[a], log[b])
  }

  /** The thread that applied the op has not recorded it yet. */
  predicate Unrecorded(tasks: seq<Task>, op: Op) {
    exists t :: t in tasks && t.op == op && !t.recorded
  }

  ghost predicate NodeOk(n: Node, published: seq<Op>) {
    && AcceptedOnce(n.log)
    && (forall o :: o in n.log ==> o in published)
    && (forall o :: o in n.recorded ==> o in n.log)
    && (forall t :: t in n.tasks ==> t.op in n.log)
    && (forall o :: o in n.log ==> o in n.recorded || Unrecorded(n.tasks, o))
  }

  lemma NodeAccepts(n: Node, published: seq<Op>, op: Op, source: Option<nat>)
    requires NodeOk(n, published) && op in published && !Knows(n, op)
    ensures NodeOk(Accept(n, op, source), published)
  {
    var n' := Accept(n, op, source);
    assert n'.tasks[|n.tasks|] == Task(op, source, false);
    forall o | o in n'.log
      ensures o in n'.recorded || Unrecorded(n'.tasks, o)
    {
      if o in n.log && o !in n.recorded {
        var t :| t in n.tasks && t.op == o && !t.recorded;
        assert t in n'.tasks;
      } else if o !in n.log {
        assert o == op && Task(op, source, false) in n'.tasks;
      }
    }
  }

  lemma NodeRecords(n: Node, published: seq<Op>, k: nat)
    requires NodeOk(n, published) && k < |n.tasks|
    ensures NodeOk(RecordTask(n, k), published)
  {
    var n' := RecordTask(n, k);
    forall t | t in n'.tasks
      ensures t.op in n'.log
    {
      var i :| 0 <= i < |n'.tasks| && n'.tasks[i] == t;
      assert n.tasks[i] in n.tasks;
    }
    forall o | o in n'.log
      ensures o in n'.recorded || Unrecorded(n'.tasks, o)
    {
      if o !in n.recorded {
        var t :| t in n.tasks && t.op == o && !t.recorded;
        var i :| 0 <= i < |n.tasks| && n.tasks[i] == t;
        if i != k { assert n'.tasks[i] == t; }
      }
    }
  }

  lemma NodeSends(n: Node, published: seq<Op>, k: nat)
    requires NodeOk(n, published) && k < |n.tasks| && n.tasks[k].recorded
    ensures NodeOk(n.(tasks := Without(n.tasks, k)), published)
  {
    var n' := n.(tasks := Without(n.tasks, k));
    forall o | o in n'.log
      ensures o in n'.recorded || Unrecorded(n'.tasks, o)
    {
      if o !in n.recorded {
        var t :| t in n.tasks && t.op == o && !t.recorded;
        InWithout(n.tasks, k, t);
      }
    }
  }

  lemma InWithout<T>(s: seq<T>, k: nat, t: T)
    requires k < |s| && t in s && t != s[k]
    ensures t in Without(s, k)
  {
    var i :| 0 <= i < |s| && s[i] == t;
    if i < k {
      assert Without(s, k)[i] == t;
    } else {
      assert Without(s, k)[i - 1] == t;
    }
  }

  // ---- one direction of a link, whatever the length of the run ----

  ghost predicate WireSafe(h: nat, a: Node, b: Node, w: Wire) {
    && (forall o :: o in w.frames || o in w.catchup ==> o in a.log)
    && (forall t :: t in a.tasks && t.source == Some(h) ==> t.op in b.log)
    && (w.snaps > 0 ==> w.joined)
  }

  lemma SafeAccept(h: nat, a: Node, b: Node, w: Wire, op: Op, source: Option<nat>)
    requires WireSafe(h, a, b, w) && (source == Some(h) ==> op in b.log)
    ensures WireSafe(h, Accept(a, op, source), b, w)
  {
  }

  lemma SafeRecord(h: nat, a: Node, b: Node, w: Wire, k: nat)
    requires WireSafe(h, a, b, w) && k < |a.tasks|
    ensures WireSafe(h, RecordTask(a, k), b, w)
  {
    var a' := RecordTask(a, k);
    forall t | t in a'.tasks && t.source == Some(h)
      ensures t.op in b.log
    {
      var i :| 0 <= i < |a'.tasks| && a'.tasks[i] == t;
      assert a.tasks[i] in a.tasks && a.tasks[i].source == Some(h);
    }
  }

  /** The wire after _send_all of a task. */
  function AfterSend(h: nat, w: Wire, t: Task): Wire {
    if w.joined && t.source != Some(h) then w.(frames := w.frames + [t.op]) else w
  }

  lemma SafeSend(h: nat, a: Node, b: Node, w: Wire, k: nat)
    requires WireSafe(h, a, b, w) && k < |a.tasks| && a.tasks[k].op in a.log
    ensures WireSafe(h, a.(tasks := Without(a.tasks, k)), b, AfterSend(h, w, a.tasks[k]))
  {
  }

  lemma SafeOther(h: nat, a: Node, b: Node, b': Node, w: Wire)
    requires WireSafe(h, a, b, w) && forall o :: o in b.log ==> o in b'.log
    ensures WireSafe(h, a, b', w)
  {
  }

  lemma SafeSnapshot(h: nat, a: Node, b: Node, w: Wire, published: seq<Op>)
    requires WireSafe(h, a, b, w) && NodeOk(a, published) && w.joined
    ensures WireSafe(h, a, b, w.(snaps := w.snaps + 1, catchup := Newest(a.recorded)))
  {
  }

  lemma SafeCatchUp(h: nat, a: Node, b: Node, w: Wire)
    requires WireSafe(h, a, b, w) && w.catchup != []
    ensures WireSafe(h, a, b, w.(catchup := w.catchup[1..], frames := w.frames + [w.catchup[0]]))
  {
  }

  // ---- one op on one direction of a link ----

  /** A thread at the sending end will still send the op over h. */
  ghost predicate Pending(tasks: seq<Task>, h: nat, op: Op) {
    exists t :: t in tasks && t.op == op && t.source != Some(h)
  }

  /** Where an op of the sending end is, once the catch-up of h has been cut. */
  ghost predicate OnItsWay(m: Mesh, j: nat, h: nat, a: Node, b: Node, w: Wire, op: Op)
    requires j < |m.allow|
  {
    || op in b.log || op in w.frames || op in w.catchup || Pending(a.tasks, h, op)
    || (m.allow[j].Some? && op.origin !in m.allow[j].value)
  }

  ghost predicate NotLost(m: Mesh, j: nat, h: nat, a: Node, b: Node, w: Wire, op: Op)
    requires j < |m.allow|
  {
    w.snaps > 0 && op in a.log ==> OnItsWay(m, j, h, a, b, w, op)
  }

  lemma OpAccept(m: Mesh, j: nat, h: nat, a: Node, b: Node, w: Wire, o: Op, op: Op, source: Option<nat>)
    requires j < |m.allow| && NotLost(m, j, h, a, b, w, o)
    requires source == Some(h) ==> op in b.log
    ensures NotLost(m, j, h, Accept(a, op, source), b, w, o)
  {
    var a' := Accept(a, op, source);
    assert a'.tasks[|a.tasks|] == Task(op, source, false);
    if o in a.log {
      assert forall t :: t in a.tasks ==> t in a'.tasks;
    } else {
      assert Task(op, source, false) in a'.tasks;
    }
  }

  lemma OpRecord(m: Mesh, j: nat, h: nat, a: Node, b: Node, w: Wire, o: Op, k: nat)
    requires j < |m.allow| && NotLost(m, j, h, a, b, w, o) && k < |a.tasks|
    ensures NotLost(m, j, h, RecordTask(a, k), b, w, o)
  {
    var a' := RecordTask(a, k);
    if Pending(a.tasks, h, o) {
      var t :| t in a.tasks && t.op == o && t.source != Some(h);
      var i :| 0 <= i < |a.tasks| && a.tasks[i] == t;
      assert a'.tasks[i] in a'.tasks;
    }
  }

  /** An op that leaves its thread is on every joined wire but the one it came from, where the other end has it. */
  lemma OpSend(m: Mesh, j: nat, h: nat, a: Node, b: Node, w: Wire, o: Op, k: nat)
    requires j < |m.allow| && WireSafe(h, a, b, w) && NotLost(m, j, h, a, b, w, o) && k < |a.tasks|
    ensures NotLost(m, j, h, a.(tasks := Without(a.tasks, k)), b, AfterSend(h, w, a.tasks[k]), o)
  {
    var w', t := AfterSend(h, w, a.tasks[k]), a.tasks[k];
    assert t in a.tasks;
    if w.snaps > 0 && Pending(a.tasks, h, o) {
      var u :| u in a.tasks && u.op == o && u.source != Some(h);
      if u == t {
        assert w'.frames[|w.frames|] == o;
      } else {
        InWithout(a.tasks, k, u);
      }
    }
  }

  lemma OpOther(m: Mesh, j: nat, h: nat, a: Node, b: Node, b': Node, w: Wire, o: Op)
    requires j < |m.allow| && NotLost(m, j, h, a, b, w, o)
    requires o in b.log ==> o in b'.log
    ensures NotLost(m, j, h, a, b', w, o)
  {
  }

  /** The op is in the snapshot, or its own thread has still to record it. */
  predicate Caught(recorded: seq<Op>, o: Op) {
    o in recorded ==> o in Newest(recorded)
  }

  /** Cutting a catch-up: what is not in the history yet is still to be sent by its own thread. Only the first
      catch-up matters: afterwards every op is on its way already. */
  lemma OpSnapshot(m: Mesh, j: nat, h: nat, a: Node, b: Node, w: Wire, o: Op, published: seq<Op>)
    requires j < |m.allow| && WireSafe(h, a, b, w) && NodeOk(a, published)
    requires NotLost(m, j, h, a, b, w, o) && w.catchup == [] && (w.snaps == 0 ==> Caught(a.recorded, o))
    ensures NotLost(m, j, h, a, b, w.(snaps := w.snaps + 1, catchup := Newest(a.recorded)), o)
  {
    if w.snaps == 0 && o in a.log && o !in a.recorded {
      var t :| t in a.tasks && t.op == o && !t.recorded;
      assert t.source != Some(h) ==> Pending(a.tasks, h, o);
    }
  }

  lemma OpCatchUp(m: Mesh, j: nat, h: nat, a: Node, b: Node, w: Wire, o: Op)
    requires j < |m.allow| && NotLost(m, j, h, a, b, w, o) && w.catchup != []
    ensures NotLost(m, j, h, a, b, w.(catchup := w.catchup[1..], frames := w.frames + [w.catchup[0]]), o)
  {
    var w' := w.(catchup := w.catchup[1..], frames := w.frames + [w.catchup[0]]);
    assert w'.frames[|w.frames|] == w.catchup[0];
    assert w.catchup == [w.catchup[0]] + w.catchup[1..];
  }

  ghost predicate OneOpPerClock(published: seq<Op>) {
    forall a, b :: a in published && b in published && SameClock(a, b) ==> a == b
  }

  /** The frame at the head is dropped only when the receiver has the op or does not want it. */
  lemma OpDeliver(m: Mesh, j: nat, h: nat, a: Node, b: Node, w: Wire, o: Op, back: nat, published: seq<Op>)
    requires j < |m.allow| && WireSafe(h, a, b, w) && NotLost(m, j, h, a, b, w, o) && w.frames != []
    requires NodeOk(a, published) && NodeOk(b, published) && OneOpPerClock(published)
    ensures NotLost(m, j, h, a, Receive(m, j, b, w.frames[0], back), w.(frames := w.frames[1..]), o)
  {
    var b', op := Receive(m, j, b, w.frames[0], back), w.frames[0];
    assert op in w.frames && op in published;
    assert w.frames == [op] + w.frames[1..];
    if Allowed(m, j, op.origin) { Received(b, b', op, published, m, j, back); }
  }

  lemma Received(b: Node, b': Node, op: Op, published: seq<Op>, m: Mesh, j: nat, back: nat)
    requires j < |m.allow| && b' == Receive(m, j, b, op, back) && Allowed(m, j, op.origin)
    requires NodeOk(b, published) && OneOpPerClock(published) && op in published
    ensures op in b'.log
  {
    if Knows(b, op) {
      var i :| 0 <= i < |b.log| && SameClock(b.log[i], op);
      assert b.log[i] in b.log;
    } else {
      assert b'.log[|b.log|] == op;
    }
  }
}
