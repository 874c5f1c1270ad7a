/** The gossip of harness/meshd.py as a state machine: any number of nodes, links that join while ops are published. */
module GossipNet {
  import opened Prelude

  /** An op is named by its Lamport clock: a counter and the node it was published at. */
  datatype Op = Op(counter: nat, origin: nat, body: string)

  /** One direction of a link. The twin is the other direction, on the same two sockets. */
  datatype Half = Half(from: nat, to: nat, twin: nat)

  /** The nodes, their links, their allowlists, and how often a catch-up may be started on one direction of a link:
      at the start, when the first data arrives, and for every invite that is presented or answered on it. */
  datatype Mesh = Mesh(size: nat, halves: seq<Half>, allow: seq<Option<set<nat>>>, catchUps: nat)

  ghost predicate ValidMesh(m: Mesh) {
    && |m.allow| == m.size && m.catchUps >= 2
    && forall h :: 0 <= h < |m.halves| ==> ValidHalf(m, m.halves[h], h)
  }

  predicate ValidHalf(m: Mesh, half: Half, h: nat) {
    && half.from < m.size && half.to < m.size && half.from != half.to && half.twin < |m.halves|
    && m.halves[half.twin] == Half(half.to, half.from, h)
  }

  predicate Allowed(m: Mesh, node: nat, origin: nat)
    requires node < |m.allow|
  {
    m.allow[node].None? || origin in m.allow[node].value
  }

  /** An op that a thread has applied and is about to record, or has recorded and is about to send. */
  datatype Task = Task(op: Op, source: Option<nat>, recorded: bool)

  /** The ops accepted and the ops recorded, both in order, and the threads inside _broadcast or _apply. */
  datatype Node = Node(log: seq<Op>, recorded: seq<Op>, tasks: seq<Task>)

  /** One direction of a link: in the sender's socks or not, catch-ups started, catch-up left to send,
      frames in flight. */
  datatype Wire = Wire(joined: bool, snaps: nat, catchup: seq<Op>, frames: seq<Op>)

  datatype Net = Net(nodes: seq<Node>, wires: seq<Wire>, published: seq<Op>)

  const HISTORY_MAX: nat := 256

  /** deque(maxlen=256): the newest entries. */
  function Newest(recorded: seq<Op>): seq<Op> {
    if |recorded| <= HISTORY_MAX then recorded else recorded[|recorded| - HISTORY_MAX..]
  }

  predicate Knows(n: Node, op: Op) {
    exists i :: 0 <= i < |n.log| && SameClock(n.log[i], op)
  }

  predicate SameClock(a: Op, b: Op) {
    a.counter == b.counter && a.origin == b.origin
  }

  datatype Event =
    | Publish(node: nat, op: Op)
    | Record(node: nat, task: nat)
    | SendAll(node: nat, task: nat)
    | Join(half: nat)
    | Snapshot(half: nat)
    | CatchUp(half: nat)
    | Deliver(half: nat)

  ghost predicate Shape(m: Mesh, s: Net) {
    ValidMesh(m) && |s.nodes| == m.size && |s.wires| == |m.halves|
  }

  predicate Enabled(m: Mesh, s: Net, e: Event)
    requires Shape(m, s)
  {
    match e
    case Publish(i, op) => i < m.size && op.origin == i && !Knows(s.nodes[i], op)
    case Record(i, k) => i < m.size && k < |s.nodes[i].tasks| && !s.nodes[i].tasks[k].recorded
    case SendAll(i, k) => i < m.size && k < |s.nodes[i].tasks| && s.nodes[i].tasks[k].recorded
    case Join(h) => h < |m.halves| && !s.wires[h].joined
    case Snapshot(h) => h < |m.halves| && s.wires[h].joined && s.wires[h].catchup == [] && s.wires[h].snaps < m.catchUps
    case CatchUp(h) => h < |m.halves| && s.wires[h].catchup != []
    case Deliver(h) => h < |m.halves| && s.wires[h].frames != [] && s.wires[m.halves[h].twin].joined
  }

  function Without<T>(s: seq<T>, k: nat): seq<T>
    requires k < |s|
  {
    s[..k] + s[k + 1..]
  }

  /** The node accepts an op, for its own thread or the reader of a socket to record and send on. */
  function Accept(n: Node, op: Op, source: Option<nat>): Node {
    n.(log := n.log + [op], tasks := n.tasks + [Task(op, source, false)])
  }

  function RecordTask(n: Node, k: nat): Node
    requires k < |n.tasks|
  {
    n.(recorded := n.recorded + [n.tasks[k].op], tasks := n.tasks[k := n.tasks[k].(recorded := true)])
  }

  /** _send_all: the frame goes to every socket in socks but the one it came from. */
  function SendTo(m: Mesh, wires: seq<Wire>, i: nat, t: Task): (r: seq<Wire>)
    requires |wires| == |m.halves|
    ensures |r| == |wires|
  {
    seq(|wires|, h requires 0 <= h < |wires| =>
      if m.halves[h].from == i && wires[h].joined && t.source != Some(h)
      then wires[h].(frames := wires[h].frames + [t.op]) else wires[h])
  }

  /** _apply at the receiving end: the allowlist, the clock, and then a task that will not send back. */
  function Receive(m: Mesh, j: nat, n: Node, op: Op, back: nat): Node
    requires j < |m.allow|
  {
    if !Allowed(m, j, op.origin) || Knows(n, op) then n else Accept(n, op, Some(back))
  }

  function Step(m: Mesh, s: Net, e: Event): (t: Net)
    requires Shape(m, s) && Enabled(m, s, e)
    ensures Shape(m, t)
  {
    match e
    case Publish(i, op) => s.(nodes := s.nodes[i := Accept(s.nodes[i], op, None)], published := s.published + [op])
    case Record(i, k) => s.(nodes := s.nodes[i := RecordTask(s.nodes[i], k)])
    case SendAll(i, k) =>
      var n := s.nodes[i];
      s.(nodes := s.nodes[i := n.(tasks := Without(n.tasks, k))], wires := SendTo(m, s.wires, i, n.tasks[k]))
    case Join(h) => s.(wires := s.wires[h := s.wires[h].(joined := true)])
    case Snapshot(h) =>
      var w := s.wires[h];
      assert ValidHalf(m, m.halves[h], h);
      s.(wires := s.wires[h := w.(snaps := w.snaps + 1, catchup := Newest(s.nodes[m.halves[h].from].recorded))])
    case CatchUp(h) =>
      var w := s.wires[h];
      s.(wires := s.wires[h := w.(catchup := w.catchup[1..], frames := w.frames + [w.catchup[0]])])
    case Deliver(h) =>
      var w, half := s.wires[h], m.halves[h];
      assert ValidHalf(m, half, h);
      s.(wires := s.wires[h := w.(frames := w.frames[1..])],
         nodes := s.nodes[half.to := Receive(m, half.to, s.nodes[half.to], w.frames[0], half.twin)])
  }

  function Initial(m: Mesh): Net {
    Net(seq(m.size, _ => Node([], [], [])), seq(|m.halves|, _ => Wire(false, 0, [], [])), [])
  }

  /** Every event of the run is enabled when its turn comes, and t is what the run ends in. */
  ghost predicate Run(m: Mesh, s: Net, events: seq<Event>, t: Net)
    requires Shape(m, s)
    decreases |events|
  {
    Shape(m, t) &&
    if events == [] then t == s
    else Enabled(m, s, events[0]) && Run(m, Step(m, s, events[0]), events[1..], t)
  }
}
