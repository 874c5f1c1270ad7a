/** The MeshDaemon of harness/meshd.py: history, sockets and allowlist, updated in place. */
module MeshDaemon {
  import opened Prelude
  import opened GossipNet

  class Socket {
    var sent: seq<Op>

    constructor ()
      ensures sent == []
    {
      sent := [];
    }

    method SendAll(frame: Op)
      modifies this
      ensures sent == old(sent) + [frame]
    {
      sent := sent + [frame];
    }
  }

  class Daemon {
    const allow: Option<set<nat>>
    var history: seq<Op>
    var socks: seq<Socket>
    var log: seq<Op>
    ghost var recorded: seq<Op>

    ghost predicate Valid()
      reads this
    {
      && history == Newest(recorded)
      && forall i, j :: 0 <= i < j < |socks| ==> socks[i] != socks[j]
    }

    /** The state of the node between two steps of its threads. */
    ghost function State(): Node
      reads this
    {
      Node(log, recorded, [])
    }

    constructor (allow: Option<set<nat>>)
      ensures Valid() && this.allow == allow && socks == [] && State() == Node([], [], [])
    {
      this.allow := allow;
      history, socks, log, recorded := [], [], [], [];
    }

    /** self.socks.append(sock), at the start of _handle_conn. */
    method AddSock(sock: Socket)
      requires Valid() && sock !in socks
      modifies this`socks
      ensures Valid() && socks == old(socks) + [sock]
    {
      socks := socks + [sock];
    }

    /** self.socks.remove(sock), at the end. */
    method RemoveSock(sock: Socket)
      requires Valid()
      modifies this`socks
      ensures Valid() && sock !in socks
      ensures forall s :: s in old(socks) && s != sock ==> s in socks
      ensures forall s :: s in socks ==> s in old(socks)
    {
      var i := 0;
      while i < |socks| && socks[i] != sock
        invariant i <= |socks| && sock !in socks[..i]
      {
        i := i + 1;
      }
      if i < |socks| {
        ghost var was := socks;
        socks := socks[..i] + socks[i + 1..];
        forall s | s in was && s != sock
          ensures s in socks
        {
          var k :| 0 <= k < |was| && was[k] == s;
          assert k < i ==> socks[k] == s;
          assert k > i ==> socks[k - 1] == s;
        }
      }
    }

    /** deque(maxlen=256).append */
    method Record(op: Op)
      requires Valid()
      modifies this`history, this`recorded
      ensures Valid() && recorded == old(recorded) + [op]
    {
      history := history + [op];
      if |history| > HISTORY_MAX {
        history := history[1..];
      }
      recorded := recorded + [op];
    }

    /** Every socket but the one excepted gets the frame, once. */
    method SendToAll(frame: Op, exceptSock: Option<Socket>)
      requires Valid()
      modifies socks
      ensures forall s :: s in socks ==> s.sent == old(s.sent) + if exceptSock == Some(s) then [] else [frame]
    {
      var i := 0;
      while i < |socks|
        invariant i <= |socks|
        invariant forall k :: 0 <= k < i ==>
                    socks[k].sent == old(socks[k].sent) + if exceptSock == Some(socks[k]) then [] else [frame]
        invariant forall k :: i <= k < |socks| ==> socks[k].sent == old(socks[k].sent)
      {
        if exceptSock != Some(socks[i]) {
          socks[i].SendAll(frame);
        }
        i := i + 1;
      }
    }

    /** _broadcast: an op of this node, already applied by the peer. */
    method Broadcast(op: Op)
      requires Valid()
      modifies this`history, this`recorded, socks
      ensures Valid() && recorded == old(recorded) + [op]
      ensures forall s :: s in socks ==> s.sent == old(s.sent) + [op]
    {
      Record(op);
      SendToAll(op, None);
    }

    method Knows(op: Op) returns (known: bool)
      ensures known == GossipNet.Knows(State(), op)
    {
      var i := 0;
      while i < |log|
        invariant i <= |log| && forall k :: 0 <= k < i ==> !SameClock(log[k], op)
      {
        if SameClock(log[i], op) { return true; }
        i := i + 1;
      }
      known := false;
    }

    /** _apply: allowlist, clock, and then record and relay; nothing happens to an op that is not accepted. */
    method Apply(op: Op, srcSock: Socket, ghost m: Mesh, ghost j: nat, ghost back: nat) returns (accepted: bool)
      requires Valid() && srcSock in socks && j < |m.allow| && m.allow[j] == allow
      modifies this`history, this`recorded, this`log, socks
      ensures Valid()
      ensures accepted <==> (allow.None? || op.origin in allow.value)
                            && forall o :: o in old(log) ==> o.counter != op.counter || o.origin != op.origin
      ensures accepted <==> Receive(m, j, old(State()), op, back) != old(State())
      ensures accepted ==> Handled(Receive(m, j, old(State()), op, back)) == State()
      ensures !accepted ==> State() == old(State())
      ensures forall s :: s in socks ==> s.sent == old(s.sent) + if accepted && s != srcSock then [op] else []
    {
      if allow.Some? && op.origin !in allow.value {
        return false;
      }
      var known := Knows(op);
      if known {
        return false;
      }
      log := log + [op];
      Record(op);
      SendToAll(op, Some(srcSock));
      accepted := true;
    }

    /** _send_catchup: the history as it is when the lock is held. */
    method SendCatchUp(sock: Socket)
      requires Valid()
      modifies sock
      ensures sock.sent == old(sock.sent) + Newest(recorded)
    {
      var snapshot := history;
      var i := 0;
      while i < |snapshot|
        invariant i <= |snapshot| && sock.sent == old(sock.sent) + snapshot[..i]
      {
        sock.SendAll(snapshot[i]);
        i := i + 1;
      }
      assert snapshot[..i] == snapshot;
    }

    /** _handle_conn up to its loop: the socket hears from now on whatever is sent, and then gets the history. What
        other threads do between the two is the business of the runs. */
    method StartConn(sock: Socket)
      requires Valid() && sock !in socks
      modifies this`socks, sock
      ensures Valid() && socks == old(socks) + [sock]
      ensures sock.sent == old(sock.sent) + Newest(recorded)
    {
      AddSock(sock);
      SendCatchUp(sock);
    }
  }

  /** The last task of a node goes through record and send. */
  ghost function Handled(n: Node): Node
    requires |n.tasks| > 0
  {
    var k := |n.tasks| - 1;
    var r := RecordTask(n, k);
    r.(tasks := Without(r.tasks, k))
  }
}
