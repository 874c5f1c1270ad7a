/** The joins of a hub in the reader threads of its connections. harness/pool.py takes no lock, so other threads come
    between the steps of a join. */
module PoolThreads {
  import opened Prelude
  import opened Pool

  /** What a thread does next: test the size of the map, read the clock, copy what has not expired, assign the copy,
      look the nonce up, note it, enrol the member. */
  datatype Stage =
    | Testing | Timing | Copying(at: int) | Assigning(kept: map<nat, Use>) | Looking | Noting | Enrolling | Done

  /** A call of join that verify_invite let pass. */
  datatype Thread = Thread(invite: Invite, name: string, stage: Stage)

  datatype System = System(hub: Hub, now: int, threads: seq<Thread>)

  datatype Event = Tick(now: int) | Begin(invite: Invite, name: string) | Move(thread: nat)

  /** The next step of one thread. */
  function Moved(h: Hub, now: int, t: Thread): (Hub, Stage) {
    match t.stage
    case Testing => (h, if |h.used| > MAX_USED then Timing else Looking)
    case Timing => (h, Copying(now))
    case Copying(at) => (h, Assigning(Live(h.used, at)))
    case Assigning(kept) => (h.(used := kept), Looking)
    case Looking =>
      (h, if t.invite.nonce in h.used && h.used[t.invite.nonce].name != t.name then Done else Noting)
    case Noting =>
      (h.(used := h.used[t.invite.nonce := Use(t.name, t.invite.exp)],
          admitted := h.admitted + [(t.invite.nonce, t.name)]), Enrolling)
    case Enrolling => (h.(members := h.members + {t.name}), Done)
    case Done => (h, Done)
  }

  /** The clock does not run backwards. An event that is not enabled changes nothing. */
  function Step(s: System, e: Event): System {
    match e
    case Tick(now) => if s.now <= now then s.(now := now) else s
    case Begin(invite, name) =>
      if Valid(Call(invite, name, s.now, s.now)) then s.(threads := s.threads + [Thread(invite, name, Testing)]) else s
    case Move(t) =>
      if t >= |s.threads| then s
      else
        var (h, stage) := Moved(s.hub, s.now, s.threads[t]);
        s.(hub := h, threads := s.threads[t := s.threads[t].(stage := stage)])
  }

  function Run(s: System, events: seq<Event>): System
    decreases |events|
  {
    if events == [] then s else Run(Step(s, events[0]), events[1..])
  }

  function Fresh(members: set<string>, now: int): System {
    System(Hub(map[], members, []), now, [])
  }

  // ---- when one nonce admits one name ----

  /** Noting the nonce of t does not cross another thread: none that has looked up the same nonce for another name, and
      none whose copy of the map it would be missing from. */
  predicate Apart(t: Thread, other: Thread) {
    && (other.stage.Noting? && other.invite.nonce == t.invite.nonce ==> other.name == t.name)
    && (other.stage.Assigning? ==>
          t.invite.nonce in other.stage.kept && other.stage.kept[t.invite.nonce].name == t.name)
  }

  /** Nonces are looked up strictly before they expire and noted apart from other threads, and invites with one nonce
      have one expiry. */
  ghost predicate Orderly(s: System, e: Event, expiry: nat -> int) {
    && (e.Begin? && e.invite.authentic ==> e.invite.exp == expiry(e.invite.nonce))
    && (e.Move? && e.thread < |s.threads| ==>
          var t := s.threads[e.thread];
          && (t.stage.Looking? ==> s.now < t.invite.exp)
          && (t.stage.Noting? ==> forall u :: 0 <= u < |s.threads| && u != e.thread ==> Apart(t, s.threads[u])))
  }

  ghost predicate OrderlyRun(s: System, events: seq<Event>, expiry: nat -> int)
    decreases |events|
  {
    events != [] ==> Orderly(s, events[0], expiry) && OrderlyRun(Step(s, events[0]), events[1..], expiry)
  }

  ghost predicate ThreadOk(h: Hub, now: int, expiry: nat -> int, t: Thread) {
    && t.invite.exp == expiry(t.invite.nonce)
    && match t.stage
       case Copying(at) => at <= now
       case Assigning(kept) => Remembered(h.(used := kept), now, expiry)
       case Noting =>
         forall i :: 0 <= i < |h.admitted| && h.admitted[i].0 == t.invite.nonce ==> h.admitted[i].1 == t.name
       case _ => true
  }

  ghost predicate Inv(s: System, expiry: nat -> int) {
    && Remembered(s.hub, s.now, expiry) && OneIdentity(s.hub)
    && forall t :: 0 <= t < |s.threads| ==> ThreadOk(s.hub, s.now, expiry, s.threads[t])
  }

  lemma TickKeeps(h: Hub, now: int, later: int, expiry: nat -> int, t: Thread)
    requires ThreadOk(h, now, expiry, t) && now <= later
    ensures ThreadOk(h, later, expiry, t)
  {
  }

  /** What a thread does to itself and to the hub. */
  lemma OwnStep(h: Hub, now: int, expiry: nat -> int, t: Thread)
    requires Remembered(h, now, expiry) && OneIdentity(h) && ThreadOk(h, now, expiry, t)
    requires t.stage.Looking? ==> now < t.invite.exp
    ensures var (h', stage) := Moved(h, now, t);
            Remembered(h', now, expiry) && OneIdentity(h') && ThreadOk(h', now, expiry, t.(stage := stage))
  {
  }

  /** What it does to another thread. */
  lemma OtherStep(h: Hub, now: int, expiry: nat -> int, t: Thread, other: Thread)
    requires ThreadOk(h, now, expiry, t) && ThreadOk(h, now, expiry, other)
    requires t.stage.Noting? ==> Apart(t, other)
    ensures ThreadOk(Moved(h, now, t).0, now, expiry, other)
  {
  }

  lemma StepKeeps(s: System, e: Event, expiry: nat -> int)
    requires Inv(s, expiry) && Orderly(s, e, expiry)
    ensures Inv(Step(s, e), expiry)
  {
    hide Remembered, OneIdentity, ThreadOk, Moved, Apart;
    var s' := Step(s, e);
    match e {
      case Tick(now) =>
        if s.now <= now {
          LaterRemembers(s.hub, s.now, now, expiry);
          forall t | 0 <= t < |s.threads| ensures ThreadOk(s.hub, now, expiry, s.threads[t]) {
            TickKeeps(s.hub, s.now, now, expiry, s.threads[t]);
          }
        }
      case Begin(invite, name) =>
        BeginOk(s.hub, s.now, expiry, invite, name);
      case Move(t) =>
        if t < |s.threads| {
          OwnStep(s.hub, s.now, expiry, s.threads[t]);
          forall u | 0 <= u < |s.threads| ensures ThreadOk(s'.hub, s.now, expiry, s'.threads[u]) {
            if u != t { OtherStep(s.hub, s.now, expiry, s.threads[t], s.threads[u]); }
          }
        }
    }
  }

  lemma LaterRemembers(h: Hub, now: int, later: int, expiry: nat -> int)
    requires Remembered(h, now, expiry) && now <= later
    ensures Remembered(h, later, expiry)
  {
  }

  lemma BeginOk(h: Hub, now: int, expiry: nat -> int, invite: Invite, name: string)
    requires invite.authentic ==> invite.exp == expiry(invite.nonce)
    ensures invite.authentic ==> ThreadOk(h, now, expiry, Thread(invite, name, Testing))
  {
  }

  lemma {:induction false} RunKeeps(s: System, events: seq<Event>, expiry: nat -> int)
    requires Inv(s, expiry) && OrderlyRun(s, events, expiry)
    ensures Inv(Run(s, events), expiry)
    decreases |events|
  {
    if events != [] {
      hide Inv, Orderly, Step;
      StepKeeps(s, events[0], expiry);
      RunKeeps(Step(s, events[0]), events[1..], expiry);
    }
  }

  /** In every orderly interleaving of any number of joins, whatever is pruned, a nonce admits one name. */
  lemma OneNamePerNonce(members: set<string>, now: int, events: seq<Event>, expiry: nat -> int)
    requires OrderlyRun(Fresh(members, now), events, expiry)
    ensures OneIdentity(Run(Fresh(members, now), events).hub)
  {
    RunKeeps(Fresh(members, now), events, expiry);
  }

  // ---- joins that do not overlap ----

  predicate Idle(s: System) {
    forall t :: 0 <= t < |s.threads| ==> s.threads[t].stage.Done?
  }

  /** At most one thread is inside join. */
  predicate Alone(s: System) {
    forall t, u :: 0 <= t < u < |s.threads| ==> s.threads[t].stage.Done? || s.threads[u].stage.Done?
  }

  /** A join begins when the one before has ended, and looks its nonce up strictly before it expires. */
  ghost predicate InTurn(s: System, e: Event, expiry: nat -> int) {
    && (e.Begin? ==> Idle(s) && (e.invite.authentic ==> e.invite.exp == expiry(e.invite.nonce)))
    && (e.Move? && e.thread < |s.threads| && s.threads[e.thread].stage.Looking? ==>
          s.now < s.threads[e.thread].invite.exp)
  }

  ghost predicate RunInTurn(s: System, events: seq<Event>, expiry: nat -> int)
    decreases |events|
  {
    events != [] ==> InTurn(s, events[0], expiry) && RunInTurn(Step(s, events[0]), events[1..], expiry)
  }

  lemma TurnStep(s: System, e: Event, expiry: nat -> int)
    requires Alone(s) && InTurn(s, e, expiry)
    ensures Orderly(s, e, expiry) && Alone(Step(s, e))
  {
    hide Live;
  }

  lemma {:induction false} InTurnOrderly(s: System, events: seq<Event>, expiry: nat -> int)
    requires Alone(s) && RunInTurn(s, events, expiry)
    ensures OrderlyRun(s, events, expiry)
    decreases |events|
  {
    if events != [] {
      hide Alone, InTurn, Orderly, Step;
      TurnStep(s, events[0], expiry);
      InTurnOrderly(Step(s, events[0]), events[1..], expiry);
    }
  }

  /** Joins that do not overlap admit one name for each nonce. */
  lemma OneAtATime(members: set<string>, now: int, events: seq<Event>, expiry: nat -> int)
    requires RunInTurn(Fresh(members, now), events, expiry)
    ensures OneIdentity(Run(Fresh(members, now), events).hub)
  {
    InTurnOrderly(Fresh(members, now), events, expiry);
    OneNamePerNonce(members, now, events, expiry);
  }

  // ---- joins that overlap ----

  /** The thread has looked its nonce up and will note it, or has done so. */
  ghost predicate Bound(s: System, t: nat, nonce: nat, name: string) {
    && t < |s.threads| && s.threads[t].invite.nonce == nonce && s.threads[t].name == name
    && (s.threads[t].stage.Noting? || (nonce, name) in s.hub.admitted)
  }

  lemma BoundStep(s: System, e: Event, t: nat, nonce: nat, name: string)
    requires Bound(s, t, nonce, name)
    ensures Bound(Step(s, e), t, nonce, name)
  {
    hide Live;
    var s' := Step(s, e);
    forall a | a in s.hub.admitted ensures a in s'.hub.admitted {}
    if e == Move(t) && s.threads[t].stage.Noting? {
      assert s'.hub.admitted[|s.hub.admitted|] == (nonce, name);
    }
  }

  lemma {:induction false} BoundRun(s: System, events: seq<Event>, t: nat, nonce: nat, name: string)
    requires Bound(s, t, nonce, name)
    ensures Bound(Run(s, events), t, nonce, name)
    decreases |events|
  {
    if events != [] {
      hide Bound, Step;
      BoundStep(s, events[0], t, nonce, name);
      BoundRun(Step(s, events[0]), events[1..], t, nonce, name);
    }
  }

  /** Two threads that have both looked one nonce up for different names admit both, however the run goes on, as soon as
      both have noted it. */
  lemma TwoReaders(s: System, t: nat, u: nat, events: seq<Event>)
    requires t < |s.threads| && u < |s.threads| && s.threads[t].stage.Noting? && s.threads[u].stage.Noting?
    requires s.threads[t].invite.nonce == s.threads[u].invite.nonce && s.threads[t].name != s.threads[u].name
    requires var s' := Run(s, events);
      forall k :: 0 <= k < |s'.threads| && (k == t || k == u) ==> !s'.threads[k].stage.Noting?
    ensures !OneIdentity(Run(s, events).hub)
  {
    var n, a, b := s.threads[t].invite.nonce, s.threads[t].name, s.threads[u].name;
    BoundRun(s, events, t, n, a);
    BoundRun(s, events, u, n, b);
    var admitted := Run(s, events).hub.admitted;
    var i :| 0 <= i < |admitted| && admitted[i] == (n, a);
    var j :| 0 <= j < |admitted| && admitted[j] == (n, b);
  }

  lemma RunFirst(s: System, e: Event, rest: seq<Event>)
    ensures Run(s, [e] + rest) == Run(Step(s, e), rest)
  {
    assert ([e] + rest)[1..] == rest;
  }

  lemma {:induction false} RunAppend(s: System, a: seq<Event>, b: seq<Event>)
    ensures Run(s, a + b) == Run(Run(s, a), b)
    decreases |a|
  {
    if a == [] {
      assert a + b == b;
    } else {
      assert (a + b)[1..] == a[1..] + b;
      RunAppend(Step(s, a[0]), a[1..], b);
    }
  }

  lemma RunOne(s: System, e: Event)
    ensures Run(s, [e]) == Step(s, e)
  {
    assert [e][1..] == [];
  }

  lemma RunFour(s: System, a: Event, b: Event, c: Event, d: Event)
    ensures Run(s, [a, b, c, d]) == Step(Step(Step(Step(s, a), b), c), d)
  {
    hide Step;
    RunFirst(s, a, [b, c, d]);
    RunFirst(Step(s, a), b, [c, d]);
    RunFirst(Step(Step(s, a), b), c, [d]);
    RunOne(Step(Step(Step(s, a), b), c), d);
    assert [a] + [b, c, d] == [a, b, c, d] && [b] + [c, d] == [b, c, d] && [c] + [d] == [c, d];
  }

  /** Two threads past the size test of an unpruned map, with one nonce that nobody has used. */
  ghost predicate BothLooking(s: System, invite: Invite, a: string, b: string) {
    && s.threads == [Thread(invite, a, Looking), Thread(invite, b, Looking)]
    && invite.nonce !in s.hub.used
  }

  lemma BothBegin(s: System, invite: Invite, a: string, b: string)
    requires s.threads == [] && invite.nonce !in s.hub.used && |s.hub.used| <= MAX_USED
    requires Valid(Call(invite, a, s.now, s.now)) && Valid(Call(invite, b, s.now, s.now))
    ensures BothLooking(Run(s, [Begin(invite, a), Begin(invite, b), Move(0), Move(1)]), invite, a, b)
  {
    var events := [Begin(invite, a), Begin(invite, b), Move(0), Move(1)];
    var s1 := Step(s, events[0]);
    assert s1.threads == [Thread(invite, a, Testing)];
    var s2 := Step(s1, events[1]);
    assert s2.threads == [Thread(invite, a, Testing), Thread(invite, b, Testing)];
    var s3 := Step(s2, events[2]);
    var s4 := Step(s3, events[3]);
    RunFour(s, events[0], events[1], events[2], events[3]);
  }

  /** Two readers of one new invite: a run without pruning, all at one instant before the expiry, that admits both. */
  lemma BothAdmitted(s: System, invite: Invite, a: string, b: string) returns (events: seq<Event>)
    requires s.threads == [] && invite.nonce !in s.hub.used && |s.hub.used| <= MAX_USED && a != b
    requires s.now < invite.exp && Valid(Call(invite, a, s.now, s.now)) && Valid(Call(invite, b, s.now, s.now))
    ensures forall i :: 0 <= i < |events| ==> !events[i].Tick?
    ensures !OneIdentity(Run(s, events).hub)
  {
    var front := [Begin(invite, a), Begin(invite, b), Move(0), Move(1)];
    var looks, notes := [Move(0), Move(1)], [Move(0), Move(1)];
    BothBegin(s, invite, a, b);
    var s4 := Run(s, front);
    BothLook(s4, invite, a, b);
    RunAppend(s, front, looks);
    events := front + looks + notes;
    RunAppend(s, front + looks, notes);
    var s6 := Run(s, front + looks);
    BothNote(s6);
    TwoReaders(s6, 0, 1, notes);
  }

  lemma BothLook(s: System, invite: Invite, a: string, b: string)
    requires BothLooking(s, invite, a, b)
    ensures Run(s, [Move(0), Move(1)]) == s.(threads := [Thread(invite, a, Noting), Thread(invite, b, Noting)])
  {
    RunFirst(s, Move(0), [Move(1)]);
    RunOne(Step(s, Move(0)), Move(1));
    assert [Move(0)] + [Move(1)] == [Move(0), Move(1)];
  }

  lemma BothNote(s: System)
    requires |s.threads| == 2 && s.threads[0].stage.Noting? && s.threads[1].stage.Noting?
    ensures var t := Run(s, [Move(0), Move(1)]); forall k :: 0 <= k < |t.threads| ==> !t.threads[k].stage.Noting?
  {
    RunFirst(s, Move(0), [Move(1)]);
    RunOne(Step(s, Move(0)), Move(1));
    assert [Move(0)] + [Move(1)] == [Move(0), Move(1)];
  }

  /** A copy made before another thread notes its nonce, and assigned after it, forgets the nonce: the next to look it
      up is admitted under another name. */
  lemma LostNonce(s: System, t: nat, u: nat, v: nat)
    requires t < |s.threads| && u < |s.threads| && v < |s.threads| && t != u && u != v && v != t
    requires s.threads[t].stage.Noting? && s.threads[u].stage.Assigning? && s.threads[v].stage.Looking?
    requires s.threads[v].invite.nonce == s.threads[t].invite.nonce && s.threads[v].name != s.threads[t].name
    requires s.threads[t].invite.nonce !in s.threads[u].stage.kept
    ensures !OneIdentity(Run(s, [Move(t), Move(u), Move(v), Move(v)]).hub)
  {
    hide Live;
    var n := |s.hub.admitted|;
    var s1 := Step(s, Move(t));
    assert s1.hub.admitted[n] == (s.threads[t].invite.nonce, s.threads[t].name);
    var s2 := Step(s1, Move(u));
    var s3 := Step(s2, Move(v));
    var s4 := Step(s3, Move(v));
    assert s4.hub.admitted[n] == s1.hub.admitted[n];
    assert s4.hub.admitted[n + 1] == (s.threads[v].invite.nonce, s.threads[v].name);
    RunFour(s, Move(t), Move(u), Move(v), Move(v));
  }

  /** A thread that holds a copy of what is live. */
  lemma Copied(s: System, invite: Invite, name: string)
    requires |s.hub.used| > MAX_USED && Valid(Call(invite, name, s.now, s.now))
    ensures
      var t := |s.threads|;
      Run(s, [Begin(invite, name), Move(t), Move(t), Move(t)]) ==
      s.(threads := s.threads + [Thread(invite, name, Assigning(Live(s.hub.used, s.now)))])
  {
    hide Live;
    var t := |s.threads|;
    RunFour(s, Begin(invite, name), Move(t), Move(t), Move(t));
    var s1 := Step(s, Begin(invite, name));
    var s2 := Step(s1, Move(t));
    assert s2.threads == s.threads + [Thread(invite, name, Timing)];
    var s3 := Step(s2, Move(t));
    assert s3.threads == s.threads + [Thread(invite, name, Copying(s.now))];
    var s4 := Step(s3, Move(t));
    assert s4.threads == s.threads + [Thread(invite, name, Assigning(Live(s.hub.used, s.now)))];
  }

  /** A thread that has come as far as the lookup without others. */
  lemma Entered(s: System, invite: Invite, name: string) returns (events: seq<Event>)
    requires Valid(Call(invite, name, s.now, s.now))
    ensures Run(s, events) == s.(hub := s.hub.(used := Prune(s.hub.used, s.now)),
                                 threads := s.threads + [Thread(invite, name, Looking)])
  {
    hide Live;
    var t, stage := |s.threads|, if |s.hub.used| > MAX_USED then Timing else Looking;
    var s1 := Step(s, Begin(invite, name));
    assert s1.threads[t] == Thread(invite, name, Testing);
    var s2 := Step(s1, Move(t));
    assert s2.threads == s.threads + [Thread(invite, name, stage)];
    RunFirst(s, Begin(invite, name), [Move(t)]);
    RunOne(s1, Move(t));
    var more := JoinPruned(s2, t);
    events := [Begin(invite, name)] + [Move(t)] + more;
    RunAppend(s, [Begin(invite, name)] + [Move(t)], more);
    assert (s.threads + [Thread(invite, name, stage)])[t := Thread(invite, name, Looking)]
      == s.threads + [Thread(invite, name, Looking)];
  }

  lemma NotInPruned(used: map<nat, Use>, n: nat, now: int)
    requires n !in used
    ensures n !in Live(used, now) && n !in Prune(used, now) && n !in Prune(Prune(used, now), now)
  {
  }

  /** With more than 8192 nonces held: a run at one instant before the expiry in which the second reader of a new invite
      looks it up after the first has noted it, and is admitted because a third thread assigns an old copy in
      between. */
  lemma LostNonceHappens(s: System, p: Invite, x: string, invite: Invite, a: string, b: string)
    returns (events: seq<Event>)
    requires |s.hub.used| > MAX_USED && invite.nonce !in s.hub.used && a != b && s.now < invite.exp
    requires Valid(Call(p, x, s.now, s.now))
    requires Valid(Call(invite, a, s.now, s.now)) && Valid(Call(invite, b, s.now, s.now))
    ensures !OneIdentity(Run(s, events).hub)
  {
    var u, t, v := |s.threads|, |s.threads| + 1, |s.threads| + 2;
    NotInPruned(s.hub.used, invite.nonce, s.now);
    hide Run, Live, Prune;
    var copy := [Begin(p, x), Move(u), Move(u), Move(u)];
    Copied(s, p, x);
    var s1 := Run(s, copy);
    var enter := Entered(s1, invite, a);
    var s2 := Run(s1, enter);
    RunOne(s2, Move(t));
    var s3 := Run(s2, [Move(t)]);
    var again := Entered(s3, invite, b);
    var s4 := Run(s3, again);
    var last := [Move(t), Move(u), Move(v), Move(v)];
    LostNonce(s4, t, u, v);
    events := copy + (enter + ([Move(t)] + (again + last)));
    RunAppend(s, copy, enter + ([Move(t)] + (again + last)));
    RunAppend(s1, enter, [Move(t)] + (again + last));
    RunAppend(s2, [Move(t)], again + last);
    RunAppend(s3, again, last);
  }

  // ---- joins one after another are the joins of the sequential runs ----

  function Staged(s: System, h: Hub, t: nat, stage: Stage): System
    requires t < |s.threads|
  {
    s.(hub := h, threads := s.threads[t := s.threads[t].(stage := stage)])
  }

  lemma StagedTwice(s: System, h: Hub, h': Hub, t: nat, stage: Stage, stage': Stage)
    requires t < |s.threads|
    ensures Staged(Staged(s, h, t, stage), h', t, stage') == Staged(s, h', t, stage')
  {
    var a := s.threads[t];
    assert s.threads[t := a.(stage := stage)][t := a.(stage := stage')] == s.threads[t := a.(stage := stage')];
  }

  /** Three steps of one thread. */
  lemma ThreeMoves(s: System, t: nat, h1: Hub, stage1: Stage, h2: Hub, stage2: Stage, h3: Hub, stage3: Stage)
    requires t < |s.threads|
    requires Moved(s.hub, s.now, s.threads[t]) == (h1, stage1)
    requires Moved(h1, s.now, s.threads[t].(stage := stage1)) == (h2, stage2)
    requires Moved(h2, s.now, s.threads[t].(stage := stage2)) == (h3, stage3)
    ensures Run(s, [Move(t), Move(t), Move(t)]) == Staged(s, h3, t, stage3)
  {
    hide Moved;
    var m := Move(t);
    RunFirst(s, m, [m, m]);
    RunFirst(Step(s, m), m, [m]);
    RunOne(Step(Step(s, m), m), m);
    StagedTwice(s, h1, h2, t, stage1, stage2);
    StagedTwice(s, h2, h3, t, stage2, stage3);
    assert [m] + [m, m] == [m, m, m] && [m] + [m] == [m, m];
  }

  lemma JoinPruned(s: System, t: nat) returns (events: seq<Event>)
    requires t < |s.threads| && s.threads[t].stage == if |s.hub.used| > MAX_USED then Timing else Looking
    ensures Run(s, events) == Staged(s, s.hub.(used := Prune(s.hub.used, s.now)), t, Looking)
  {
    hide Live;
    if s.threads[t].stage.Timing? {
      events := [Move(t), Move(t), Move(t)];
      var kept := Live(s.hub.used, s.now);
      ThreeMoves(s, t, s.hub, Copying(s.now), s.hub, Assigning(kept), s.hub.(used := kept), Looking);
    } else {
      events := [];
      assert s.threads[t := s.threads[t]] == s.threads;
    }
  }

  /** The lookup decides, and then the thread notes the nonce and enrols the member. */
  lemma JoinEnds(s: System, t: nat, c: Call) returns (events: seq<Event>)
    requires t < |s.threads| && s.threads[t] == Thread(c.invite, c.name, Looking)
    ensures Run(s, events) == Staged(s,
      if TakenByOther(s.hub.used, c) then s.hub
      else Hub(s.hub.used[c.invite.nonce := Use(c.name, c.invite.exp)], s.hub.members + {c.name},
               s.hub.admitted + [(c.invite.nonce, c.name)]), t, Done)
  {
    if TakenByOther(s.hub.used, c) {
      events := [Move(t)];
      RunOne(s, Move(t));
    } else {
      events := [Move(t), Move(t), Move(t)];
      var h := s.hub.(used := s.hub.used[c.invite.nonce := Use(c.name, c.invite.exp)],
                      admitted := s.hub.admitted + [(c.invite.nonce, c.name)]);
      ThreeMoves(s, t, s.hub, Noting, h, Enrolling, h.(members := h.members + {c.name}), Done);
    }
  }

  /** The thread is inside, past the size test, at the time of the pruning. */
  lemma JoinBegins(s: System, c: Call) returns (events: seq<Event>)
    requires Valid(c) && s.now <= c.verified <= c.pruned
    ensures Run(s, events) == System(s.hub, c.pruned,
      s.threads + [Thread(c.invite, c.name, if |s.hub.used| > MAX_USED then Timing else Looking)])
  {
    var t := |s.threads|;
    events := [Tick(c.verified), Begin(c.invite, c.name), Move(t), Tick(c.pruned)];
    var s1 := Step(s, events[0]);
    var s2 := Step(s1, events[1]);
    assert s2.threads[t] == Thread(c.invite, c.name, Testing);
    var s3 := Step(s2, events[2]);
    assert s3.threads == s.threads + [Thread(c.invite, c.name, if |s.hub.used| > MAX_USED then Timing else Looking)];
    RunFour(s, events[0], events[1], events[2], events[3]);
  }

  /** One call without others. */
  lemma JoinAlone(s: System, c: Call) returns (events: seq<Event>)
    requires Idle(s) && s.now <= c.verified <= c.pruned
    ensures Run(s, events).hub == Join(s.hub, c).0 && Run(s, events).now == c.pruned && Idle(Run(s, events))
  {
    if !Valid(c) {
      events := [Tick(c.pruned)];
      RunOne(s, Tick(c.pruned));
    } else {
      hide Run, Live;
      var begin := JoinBegins(s, c);
      var s1 := Run(s, begin);
      var prune := JoinPruned(s1, |s.threads|);
      var s2 := Run(s1, prune);
      var end := JoinEnds(s2, |s.threads|, c);
      events := begin + (prune + end);
      RunAppend(s, begin, prune + end);
      RunAppend(s1, prune, end);
    }
  }

  /** Every run of the joins in Pool is a run of the threads, so what goes wrong there goes wrong here. */
  lemma {:induction false} SequentialRun(s: System, calls: seq<Call>) returns (events: seq<Event>)
    requires Idle(s) && Clock(calls, s.now)
    ensures Run(s, events).hub == Pool.Run(s.hub, calls) && Idle(Run(s, events))
    decreases |calls|
  {
    if calls == [] {
      events := [];
    } else {
      hide Run, Join, Idle;
      var first := JoinAlone(s, calls[0]);
      var rest := SequentialRun(Run(s, first), calls[1..]);
      events := first + rest;
      RunAppend(s, first, rest);
    }
  }
}
