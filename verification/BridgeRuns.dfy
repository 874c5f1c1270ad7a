/** Any number of pools joined by any number of tagging bridges, over whole runs. */
module BridgeRuns {
  import opened Prelude
  import opened Bridge

  /** A bridge between two pools, with a node of its own in each. Bridges that share a node do not hear what the others
      publish there, since on_op runs for remote ops only. */
  datatype Link = Link(a: nat, b: nat, policy: Policy)

  datatype World = World(names: seq<string>, links: seq<Link>)

  ghost predicate ValidWorld(w: World) {
    forall l :: 0 <= l < |w.links| ==> w.links[l].a < |w.names| && w.links[l].b < |w.names|
  }

  /** An op in a pool: how it was published first, the pool it left first, how often it crossed,
      and the link that put it here. */
  datatype Entry = Entry(target: string, value: string, original: string, first: Option<string>,
                         hops: nat, link: Option<nat>)

  datatype State = State(pools: seq<seq<Entry>>, crossed: set<(nat, nat, nat)>)

  datatype Event =
    | Publish(pool: nat, target: string, value: string)
    | Cross(link: nat, forward: bool, index: nat)

  function Source(l: Link, forward: bool): nat {
    if forward then l.a else l.b
  }

  function Sink(l: Link, forward: bool): nat {
    if forward then l.b else l.a
  }

  /** on_op runs once for each op that is accepted from others, and a link hears nothing of what it published itself.
      `publish` raises for long targets, in the pool itself as in a relay. */
  predicate Enabled(w: World, s: State, e: Event) {
    match e
    case Publish(p, target, _) => p < |s.pools| && |target| < MAX_TARGET
    case Cross(l, forward, k) =>
      && l < |w.links|
      && Source(w.links[l], forward) < |s.pools| && Sink(w.links[l], forward) < |s.pools|
      && k < |s.pools[Source(w.links[l], forward)]|
      && s.pools[Source(w.links[l], forward)][k].link != Some(l)
      && Allows(w.links[l].policy, s.pools[Source(w.links[l], forward)][k].target)
      && (l, Source(w.links[l], forward), k) !in s.crossed
      && Source(w.links[l], forward) < |w.names|
      && |TagTarget(w.names[Source(w.links[l], forward)],
                    s.pools[Source(w.links[l], forward)][k].target)| < MAX_TARGET
  }

  /** The entry that the relay publishes on the other side. */
  function Carried(e: Entry, pool: string, link: nat): Entry {
    Entry(TagTarget(pool, e.target), e.value, e.original, if e.first.None? then Some(pool) else e.first,
          e.hops + 1, Some(link))
  }

  function Step(w: World, s: State, e: Event): (t: State)
    requires ValidWorld(w) && |s.pools| == |w.names| && Enabled(w, s, e)
    ensures |t.pools| == |s.pools|
  {
    match e
    case Publish(p, target, value) =>
      s.(pools := s.pools[p := s.pools[p] + [Entry(target, value, target, None, 0, None)]])
    case Cross(l, forward, k) =>
      var from, to := Source(w.links[l], forward), Sink(w.links[l], forward);
      State(s.pools[to := s.pools[to] + [Carried(s.pools[from][k], w.names[from], l)]], s.crossed + {(l, from, k)})
  }

  function Empty(w: World): State {
    State(seq(|w.names|, _ => []), {})
  }

  ghost predicate Run(w: World, s: State, events: seq<Event>, t: State)
    requires ValidWorld(w) && |s.pools| == |w.names|
    decreases |events|
  {
    if events == [] then t == s
    else Enabled(w, s, events[0]) && Run(w, Step(w, s, events[0]), events[1..], t)
  }

  // ---- the tag is that of the first pool crossed ----

  ghost predicate EntryOk(e: Entry) {
    && |e.target| < MAX_TARGET
    && if e.hops == 0 then e.target == e.original && e.first == None
       else e.first.Some? && e.target == TagTarget(e.first.value, e.original)
  }

  ghost predicate AllOk(s: State) {
    forall p, k :: 0 <= p < |s.pools| && 0 <= k < |s.pools[p]| ==> EntryOk(s.pools[p][k])
  }

  lemma CarriedOk(e: Entry, pool: string, link: nat)
    requires EntryOk(e) && |TagTarget(pool, e.target)| < MAX_TARGET
    ensures EntryOk(Carried(e, pool, link))
  {
    if e.hops > 0 { TagIdempotent(e.first.value, pool, e.original); }
  }

  lemma StepOk(w: World, s: State, e: Event)
    requires ValidWorld(w) && |s.pools| == |w.names| && Enabled(w, s, e) && AllOk(s)
    ensures AllOk(Step(w, s, e))
  {
    hide EntryOk;
    if e.Cross? {
      var from := Source(w.links[e.link], e.forward);
      CarriedOk(s.pools[from][e.index], w.names[from], e.link);
    } else {
      PublishedOk(e.target, e.value);
    }
  }

  lemma PublishedOk(target: string, value: string)
    requires |target| < MAX_TARGET
    ensures EntryOk(Entry(target, value, target, None, 0, None))
  {
  }

  lemma {:induction false} RunOk(w: World, s: State, events: seq<Event>, t: State)
    requires ValidWorld(w) && |s.pools| == |w.names| && AllOk(s) && Run(w, s, events, t)
    ensures AllOk(t) && |t.pools| == |w.names|
    decreases |events|
  {
    hide AllOk, Enabled;
    if events != [] {
      StepOk(w, s, events[0]);
      RunOk(w, Step(w, s, events[0]), events[1..], t);
    }
  }

  /** In every run, what crossed carries the tag of the first pool it left if it came from the registry, stayed short
      enough to be published, and yields foreign keys or none. */
  lemma ForeignStaysForeign(w: World, events: seq<Event>, t: State, p: nat, k: nat)
    requires ValidWorld(w) && Run(w, Empty(w), events, t)
    requires p < |t.pools| && k < |t.pools[p]| && t.pools[p][k].hops > 0
    ensures
      var e := t.pools[p][k];
      && e.first.Some? && e.target == TagTarget(e.first.value, e.original) && |e.target| < MAX_TARGET
      && (Tagged(e.target) <==> Registry(e.original))
      && var f := RegistryFeedback(e.target, e.value); (f.Some? ==> Foreign(f.value.key))
  {
    assert AllOk(Empty(w));
    RunOk(w, Empty(w), events, t);
    var e := t.pools[p][k];
    assert EntryOk(e);
    TagResult(e.first.value, e.original);
    ForeignOnly(e.first.value, e.original, e.value);
  }

  // ---- one hop, exactly when no policy lets tagged or foreign targets pass ----

  /** Of the targets that can be published at all, the policy admits only untagged ones of the registry. */
  ghost predicate LocalPolicy(p: Policy) {
    forall target :: |target| < 96 ==> UntaggedOnly(p, target)
  }

  ghost predicate LocalOnly(w: World) {
    forall l :: 0 <= l < |w.links| ==> LocalPolicy(w.links[l].policy)
  }

  ghost predicate OneHop(s: State) {
    forall p, k :: 0 <= p < |s.pools| && 0 <= k < |s.pools[p]| ==> s.pools[p][k].hops <= 1
  }

  lemma HopsStep(w: World, s: State, e: Event)
    requires ValidWorld(w) && |s.pools| == |w.names| && Enabled(w, s, e) && AllOk(s) && LocalOnly(w) && OneHop(s)
    ensures OneHop(Step(w, s, e))
    ensures e.Cross? ==> s.pools[Source(w.links[e.link], e.forward)][e.index].hops == 0
  {
    if e.Cross? {
      var entry := s.pools[Source(w.links[e.link], e.forward)][e.index];
      assert EntryOk(entry);
      assert LocalPolicy(w.links[e.link].policy);
      assert UntaggedOnly(w.links[e.link].policy, entry.target);
      if entry.hops > 0 { TagResult(entry.first.value, entry.original); }
    }
  }

  lemma {:induction false} HopsRun(w: World, s: State, events: seq<Event>, t: State)
    requires ValidWorld(w) && |s.pools| == |w.names| && AllOk(s) && LocalOnly(w) && OneHop(s) && Run(w, s, events, t)
    ensures OneHop(t)
    decreases |events|
  {
    hide AllOk, Enabled, Step, OneHop, LocalOnly;
    if events != [] {
      StepOk(w, s, events[0]);
      HopsStep(w, s, events[0]);
      HopsRun(w, Step(w, s, events[0]), events[1..], t);
    }
  }

  /** Crossings that can still happen to what was published in the pools themselves. */
  function Crossings(w: World, s: State): set<(nat, nat, nat)> {
    set l, p, k | 0 <= l < |w.links| && 0 <= p < |s.pools| && 0 <= k < |s.pools[p]| && s.pools[p][k].hops == 0
      :: (l, p, k)
  }

  function Remaining(w: World, s: State): nat {
    |Crossings(w, s) - s.crossed|
  }

  /** Relaying ends: every crossing leaves one crossing fewer to come. */
  lemma CrossingUsesUp(w: World, s: State, e: Event)
    requires ValidWorld(w) && |s.pools| == |w.names| && Enabled(w, s, e)
    requires AllOk(s) && LocalOnly(w) && OneHop(s) && e.Cross?
    ensures Remaining(w, Step(w, s, e)) < Remaining(w, s)
  {
    hide AllOk, LocalOnly, Allows, OneHop;
    HopsStep(w, s, e);
    var t, from := Step(w, s, e), Source(w.links[e.link], e.forward);
    var used: (nat, nat, nat) := (e.link, from, e.index);
    CrossingsSame(w, s, e);
    assert used in Crossings(w, s) - s.crossed;
    assert Crossings(w, t) - t.crossed == (Crossings(w, s) - s.crossed) - {used};
  }

  lemma CrossingsSame(w: World, s: State, e: Event)
    requires ValidWorld(w) && |s.pools| == |w.names| && Enabled(w, s, e) && e.Cross?
    ensures Crossings(w, Step(w, s, e)) == Crossings(w, s)
  {
    hide Allows;
    var t, to := Step(w, s, e), Sink(w.links[e.link], e.forward);
    forall l: nat, p: nat, k: nat
      ensures (l, p, k) in Crossings(w, t) <==> (l, p, k) in Crossings(w, s)
    {
      if p == to && k == |s.pools[to]| && p < |t.pools| { assert t.pools[p][k].hops > 0; }
    }
  }

  // ---- ping-pong otherwise ----

  /** A target that can be published, passes the policy, and that tagging leaves alone. */
  ghost predicate Bounces(policy: Policy, target: string) {
    |target| < 96 && Allows(policy, target) && (Tagged(target) || !Registry(target))
  }

  /** Two links between the same two pools. */
  function Parallel(policy: Policy): World {
    World(["a", "b"], [Link(0, 1, policy), Link(0, 1, policy)])
  }

  /** The n-th step of the exchange: out over link 0, back over link 1. */
  function Exchange(n: nat): Event {
    if n % 2 == 0 then Cross(0, true, n / 2) else Cross(1, false, n / 2)
  }

  /** The op after n hops, for a target that tagging leaves alone. */
  function Copy(target: string, n: nat): Entry {
    Entry(target, "1", target, if n == 0 then None else Some("a"), n, if n == 0 then None else Some((n - 1) % 2))
  }

  function Copies(target: string, n: nat, odd: bool): (c: seq<Entry>)
    ensures |c| == if odd then n / 2 else (n + 1) / 2
    ensures forall i :: 0 <= i < |c| ==> c[i] == Copy(target, 2 * i + if odd then 1 else 0)
  {
    seq(if odd then n / 2 else (n + 1) / 2, i requires 0 <= i => Copy(target, 2 * i + if odd then 1 else 0))
  }

  function Used(n: nat): set<(nat, nat, nat)> {
    set i: nat | i < n :: ((i % 2) as nat, (i % 2) as nat, (i / 2) as nat)
  }

  /** n copies published, one after n - 1 hops. */
  function Bounced(target: string, n: nat): State
    requires n > 0
  {
    State([Copies(target, n, false), Copies(target, n, true)], Used(n - 1))
  }

  lemma BounceStep(policy: Policy, target: string, n: nat)
    requires n > 0 && Bounces(policy, target)
    ensures ValidWorld(Parallel(policy)) && Enabled(Parallel(policy), Bounced(target, n), Exchange(n - 1))
    ensures Step(Parallel(policy), Bounced(target, n), Exchange(n - 1)) == Bounced(target, n + 1)
  {
    hide Allows, Bounced, Used, Registry, Tagged, Step, Enabled;
    UsedNew(n - 1);
    if n % 2 == 1 {
      BounceOut(policy, target, n);
    } else {
      BounceBack(policy, target, n);
    }
  }

  lemma BounceOut(policy: Policy, target: string, n: nat)
    requires n > 0 && Bounces(policy, target) && (n - 1) % 2 == 0
    requires (0, 0, (n - 1) / 2) !in Used(n - 1) && Used(n) == Used(n - 1) + {(0, 0, (n - 1) / 2)}
    ensures Enabled(Parallel(policy), Bounced(target, n), Exchange(n - 1))
    ensures Step(Parallel(policy), Bounced(target, n), Exchange(n - 1)) == Bounced(target, n + 1)
  {
    TagResult("a", target);
    hide Allows, TagTarget, Used, Registry, Tagged;
    var s, t := Bounced(target, n), Bounced(target, n + 1);
    assert s.pools[0][(n - 1) / 2] == Copy(target, n - 1);
    assert Carried(Copy(target, n - 1), "a", 0) == Copy(target, n);
    assert t.pools[1] == s.pools[1] + [Copy(target, n)];
    assert t.pools[0] == s.pools[0];
  }

  lemma BounceBack(policy: Policy, target: string, n: nat)
    requires n > 0 && Bounces(policy, target) && (n - 1) % 2 == 1
    requires (1, 1, (n - 1) / 2) !in Used(n - 1) && Used(n) == Used(n - 1) + {(1, 1, (n - 1) / 2)}
    ensures Enabled(Parallel(policy), Bounced(target, n), Exchange(n - 1))
    ensures Step(Parallel(policy), Bounced(target, n), Exchange(n - 1)) == Bounced(target, n + 1)
  {
    TagResult("b", target);
    hide Allows, TagTarget, Used, Registry, Tagged;
    var s, t := Bounced(target, n), Bounced(target, n + 1);
    assert s.pools[1][(n - 1) / 2] == Copy(target, n - 1);
    assert Carried(Copy(target, n - 1), "b", 1) == Copy(target, n);
    assert t.pools[0] == s.pools[0] + [Copy(target, n)];
    assert t.pools[1] == s.pools[1];
  }

  lemma UsedNew(i: nat)
    ensures (i % 2, i % 2, i / 2) !in Used(i)
    ensures Used(i + 1) == Used(i) + {(i % 2, i % 2, i / 2)}
  {
    forall j: nat | j < i
      ensures j % 2 != i % 2 || j / 2 != i / 2
    {
      assert j == 2 * (j / 2) + j % 2 && i == 2 * (i / 2) + i % 2;
    }
  }

  lemma BounceStart(policy: Policy, target: string)
    requires |target| < 96
    ensures ValidWorld(Parallel(policy)) && Enabled(Parallel(policy), Empty(Parallel(policy)), Publish(0, target, "1"))
    ensures Step(Parallel(policy), Empty(Parallel(policy)), Publish(0, target, "1")) == Bounced(target, 1)
  {
    var t := Step(Parallel(policy), Empty(Parallel(policy)), Publish(0, target, "1"));
    assert t.pools[0] == Copies(target, 1, false) && t.pools[1] == Copies(target, 1, true);
    assert t.pools == Bounced(target, 1).pools;
    assert Used(0) == {};
  }

  lemma {:induction false} RunMore(w: World, s: State, events: seq<Event>, t: State, e: Event)
    requires ValidWorld(w) && |s.pools| == |w.names| == |t.pools| && Run(w, s, events, t) && Enabled(w, t, e)
    ensures Run(w, s, events + [e], Step(w, t, e))
    decreases |events|
  {
    hide Step, Enabled;
    if events == [] {
      assert [] + [e] == [e] && [e][1..] == [];
      assert Run(w, Step(w, t, e), [], Step(w, t, e));
    } else {
      assert (events + [e])[1..] == events[1..] + [e];
      RunMore(w, Step(w, s, events[0]), events[1..], t, e);
    }
  }

  /** A target short enough to be published that passes a policy tagged, or from outside the registry, travels to and
      fro for ever. */
  lemma {:induction false} PingPong(policy: Policy, target: string, n: nat) returns (events: seq<Event>)
    requires n > 0 && Bounces(policy, target)
    ensures ValidWorld(Parallel(policy)) && Run(Parallel(policy), Empty(Parallel(policy)), events, Bounced(target, n))
  {
    hide Step, Enabled, Bounced, Allows, Tagged, Registry;
    var w := Parallel(policy);
    BounceStart(policy, target);
    if n == 1 {
      events := [];
      assert Run(w, Empty(w), [], Empty(w));
      RunMore(w, Empty(w), [], Empty(w), Publish(0, target, "1"));
      events := [] + [Publish(0, target, "1")];
    } else {
      events := PingPong(policy, target, n - 1);
      BounceStep(policy, target, n - 1);
      BouncedTwo(target, n - 1);
      RunMore(w, Empty(w), events, Bounced(target, n - 1), Exchange(n - 2));
      events := events + [Exchange(n - 2)];
    }
  }

  lemma BouncedTwo(target: string, n: nat)
    requires n > 0
    ensures |Bounced(target, n).pools| == 2
  {
  }

  ghost predicate Reaches(w: World, t: State)
    requires ValidWorld(w)
  {
    exists events :: Run(w, Empty(w), events, t)
  }

  lemma LocalOneHop(policy: Policy, t: State)
    requires LocalPolicy(policy) && ValidWorld(Parallel(policy)) && Reaches(Parallel(policy), t)
    ensures OneHop(t)
  {
    var w := Parallel(policy);
    var events :| Run(w, Empty(w), events, t);
    assert AllOk(Empty(w)) && OneHop(Empty(w));
    hide Step, Enabled, AllOk, LocalPolicy, OneHop, Run;
    HopsRun(w, Empty(w), events, t);
  }

  lemma BouncingTwice(policy: Policy, target: string)
    requires Bounces(policy, target)
    ensures ValidWorld(Parallel(policy)) && Reaches(Parallel(policy), Bounced(target, 3))
    ensures !OneHop(Bounced(target, 3))
  {
    hide Bounces, Bounced, OneHop, Run;
    var events := PingPong(policy, target, 3);
    TwoHops(target);
  }

  /** With two bridges between two pools, each with nodes of its own: nothing crosses twice, exactly when the policy
      admits only untagged registry targets of those that can be published. */
  lemma OneHopExactly(policy: Policy)
    ensures ValidWorld(Parallel(policy))
    ensures (forall t :: Reaches(Parallel(policy), t) ==> OneHop(t)) <==> LocalPolicy(policy)
  {
    hide OneHop, Reaches, Bounced, Allows;
    if LocalPolicy(policy) {
      forall t | Reaches(Parallel(policy), t)
        ensures OneHop(t)
      {
        LocalOneHop(policy, t);
      }
    } else {
      var target :| |target| < MAX_TARGET && !UntaggedOnly(policy, target);
      BouncingTwice(policy, target);
    }
  }

  lemma TwoHops(target: string)
    ensures !OneHop(Bounced(target, 3))
  {
    assert Bounced(target, 3).pools[0][1] == Copy(target, 2);
  }
}
