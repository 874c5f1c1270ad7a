/** PoolHub.join of harness/pool.py: an invite admits one identity while it lives. */
module Pool {
  import opened Prelude

  const MAX_USED: nat := 8192

  /** A presented invite: whether its signature and version hold, and the two claims join reads. */
  datatype Invite = Invite(authentic: bool, nonce: nat, exp: int)

  /** One call, with the clock readings of verify_invite and of the pruning. */
  datatype Call = Call(invite: Invite, name: string, verified: int, pruned: int)

  datatype Use = Use(name: string, exp: int)

  /** The hub, and as a record for the proofs who was admitted with which nonce. */
  datatype Hub = Hub(used: map<nat, Use>, members: set<string>, admitted: seq<(nat, string)>)

  predicate Valid(c: Call) {
    c.invite.authentic && c.verified <= c.invite.exp && 1 <= |c.name| <= 31
  }

  /** The entries that have not expired. */
  function Live(used: map<nat, Use>, now: int): map<nat, Use> {
    map n | n in used && used[n].exp > now :: used[n]
  }

  /** Expired nonces go, but only when the map has grown past its bound. */
  function Prune(used: map<nat, Use>, now: int): map<nat, Use> {
    if |used| > MAX_USED then Live(used, now) else used
  }

  predicate TakenByOther(used: map<nat, Use>, c: Call) {
    c.invite.nonce in used && used[c.invite.nonce].name != c.name
  }

  /** A call that no other thread comes between: PoolThreads takes it apart. */
  function Join(h: Hub, c: Call): (r: (Hub, bool)) {
    if !Valid(c) then (h, false)
    else
      var used := Prune(h.used, c.pruned);
      if TakenByOther(used, c) then (h.(used := used), false)
      else (Hub(used[c.invite.nonce := Use(c.name, c.invite.exp)], h.members + {c.name},
                h.admitted + [(c.invite.nonce, c.name)]), true)
  }

  class PoolHub {
    var used: map<nat, Use>
    var members: set<string>
    ghost var admitted: seq<(nat, string)>

    ghost function State(): Hub
      reads this
    {
      Hub(used, members, admitted)
    }

    constructor (allow: set<string>)
      ensures State() == Hub(map[], allow, [])
    {
      used, members, admitted := map[], allow, [];
    }

    /** The member list of an accepted join, which no other thread comes between; the source sorts it. */
    method JoinPool(c: Call) returns (reply: Option<set<string>>)
      modifies this
      ensures (State(), reply.Some?) == Join(old(State()), c)
      ensures reply.Some? <==>
        && c.invite.authentic && c.verified <= c.invite.exp && 1 <= |c.name| <= 31
        && (c.invite.nonce in old(used) && old(used)[c.invite.nonce].name != c.name ==>
              |old(used)| > 8192 && old(used)[c.invite.nonce].exp <= c.pruned)
      ensures reply.Some? ==>
        && reply.value == members == old(members) + {c.name}
        && c.invite.nonce in used && used[c.invite.nonce] == Use(c.name, c.invite.exp)
      ensures reply.None? ==> members == old(members)
      ensures forall n :: n in used && (reply.None? || n != c.invite.nonce) ==>
        n in old(used) && used[n] == old(used)[n]
      ensures forall n :: n in old(used) && (reply.None? || n != c.invite.nonce) ==>
        (n !in used <==> c.invite.authentic && c.verified <= c.invite.exp && 1 <= |c.name| <= 31
                         && |old(used)| > 8192 && old(used)[n].exp <= c.pruned)
    {
      if !c.invite.authentic || c.verified > c.invite.exp {
        return None;
      }
      if c.name == "" || |c.name| > 31 {
        return None;
      }
      if |used| > MAX_USED {
        used := Live(used, c.pruned);
      }
      if c.invite.nonce in used && used[c.invite.nonce].name != c.name {
        return None;
      }
      used := used[c.invite.nonce := Use(c.name, c.invite.exp)];
      members := members + {c.name};
      admitted := admitted + [(c.invite.nonce, c.name)];
      reply := Some(members);
    }
  }

  // ---- one call ----

  /** A stranger gets in on a taken nonce exactly when the pruning forgets it after the check let it pass. */
  lemma ReplayAdmitted(h: Hub, c: Call)
    requires c.invite.nonce in h.used && h.used[c.invite.nonce] == Use(h.used[c.invite.nonce].name, c.invite.exp)
    requires h.used[c.invite.nonce].name != c.name
    ensures Join(h, c).1 <==>
      && c.invite.authentic && c.verified <= c.invite.exp <= c.pruned && 1 <= |c.name| <= 31 && |h.used| > 8192
  {
  }

  // ---- runs ----

  function Run(h: Hub, calls: seq<Call>): Hub
    decreases |calls|
  {
    if calls == [] then h else Run(Join(h, calls[0]).0, calls[1..])
  }

  /** The clock never runs backwards. */
  ghost predicate Clock(calls: seq<Call>, now: int) {
    if calls == [] then true
    else now <= calls[0].verified <= calls[0].pruned && Clock(calls[1..], calls[0].pruned)
  }

  /** Invites with one nonce have one expiry. */
  ghost predicate OneExpiry(calls: seq<Call>, expiry: nat -> int) {
    forall i :: 0 <= i < |calls| ==>
      (calls[i].invite.authentic ==> calls[i].invite.exp == expiry(calls[i].invite.nonce))
  }

  /** No valid call reads the clock at or after the expiry. */
  ghost predicate StrictlyBefore(calls: seq<Call>) {
    forall i :: 0 <= i < |calls| ==> (Valid(calls[i]) ==> calls[i].pruned < calls[i].invite.exp)
  }

  ghost predicate Remembered(h: Hub, now: int, expiry: nat -> int) {
    && (forall i :: 0 <= i < |h.admitted| ==>
        var n := h.admitted[i].0;
        (n in h.used && h.used[n].name == h.admitted[i].1) || (n !in h.used && expiry(n) <= now))
    && (forall n :: n in h.used ==> h.used[n].exp == expiry(n))
  }

  ghost predicate OneIdentity(h: Hub) {
    forall i, j :: 0 <= i < |h.admitted| && 0 <= j < |h.admitted| && h.admitted[i].0 == h.admitted[j].0 ==>
      h.admitted[i].1 == h.admitted[j].1
  }

  lemma JoinRemembers(h: Hub, c: Call, now: int, expiry: nat -> int)
    requires Remembered(h, now, expiry) && OneIdentity(h) && now <= c.verified <= c.pruned
    requires c.invite.authentic ==> c.invite.exp == expiry(c.invite.nonce)
    requires Valid(c) ==> c.pruned < c.invite.exp
    ensures Remembered(Join(h, c).0, c.pruned, expiry) && OneIdentity(Join(h, c).0)
  {
    if Valid(c) {
      var used := Prune(h.used, c.pruned);
      forall i | 0 <= i < |h.admitted| && h.admitted[i].0 == c.invite.nonce
        ensures c.invite.nonce in used && used[c.invite.nonce].name == h.admitted[i].1
      {
      }
    }
  }

  /** Of calls one after another, whatever their order and the pruning, a nonce admits one name. */
  lemma {:induction false} OneIdentityPerInvite(h: Hub, calls: seq<Call>, now: int, expiry: nat -> int)
    requires Remembered(h, now, expiry) && OneIdentity(h)
    requires Clock(calls, now) && OneExpiry(calls, expiry) && StrictlyBefore(calls)
    ensures OneIdentity(Run(h, calls))
    decreases |calls|
  {
    if calls != [] {
      JoinRemembers(h, calls[0], now, expiry);
      OneIdentityPerInvite(Join(h, calls[0]).0, calls[1..], calls[0].pruned, expiry);
    }
  }

  // ---- the two ways in ----

  function FilledUsed(n: nat): (used: map<nat, Use>)
    ensures forall k: nat :: k in used <==> k < n
    ensures forall k: nat :: k in used ==> used[k] == Use("a", 10)
    ensures |used| == n
  {
    if n == 0 then map[] else FilledUsed(n - 1)[n - 1 := Use("a", 10)]
  }

  /** n different nonces, admitted to one node and expiring at 10. */
  function Filled(n: nat): Hub {
    Hub(FilledUsed(n), if n == 0 then {} else {"a"}, seq(n, i requires 0 <= i => (i as nat, "a")))
  }

  function Fill(n: nat): (calls: seq<Call>)
    ensures |calls| == n
  {
    seq(n, i requires 0 <= i => FillCall(i))
  }

  lemma {:induction false} RunSnoc(h: Hub, calls: seq<Call>, c: Call)
    ensures Run(h, calls + [c]) == Join(Run(h, calls), c).0
    decreases |calls|
  {
    if calls == [] {
      assert [] + [c] == [c] && [c][1..] == [];
    } else {
      assert (calls + [c])[1..] == calls[1..] + [c];
      RunSnoc(Join(h, calls[0]).0, calls[1..], c);
    }
  }

  function FillCall(k: nat): Call {
    Call(Invite(true, k, 10), "a", 1, 1)
  }

  lemma FilledJoin(n: nat)
    requires n <= MAX_USED
    ensures Join(Filled(n), FillCall(n)).0 == Filled(n + 1)
  {
    var s := Filled(n);
    assert Filled(n + 1).admitted == s.admitted + [(n, "a")];
    assert Filled(n + 1).members == s.members + {"a"};
  }

  lemma FillNext(n: nat)
    ensures Fill(n + 1) == Fill(n) + [FillCall(n)]
  {
  }

  lemma {:induction false} FillRun(n: nat)
    requires n <= MAX_USED + 1
    ensures Run(Hub(map[], {}, []), Fill(n)) == Filled(n)
  {
    if n == 0 {
      assert Filled(0) == Hub(map[], {}, []);
    } else {
      hide Run, Filled, Join;
      FillRun(n - 1);
      FillNext(n - 1);
      hide Fill;
      RunSnoc(Hub(map[], {}, []), Fill(n - 1), FillCall(n - 1));
      FilledJoin(n - 1);
    }
  }

  lemma {:induction false} ClockSnoc(calls: seq<Call>, now: int, c: Call)
    requires Clock(calls, now) && c.verified <= c.pruned
    requires if calls == [] then now <= c.verified else calls[|calls| - 1].pruned <= c.verified
    ensures Clock(calls + [c], now)
    decreases |calls|
  {
    if calls == [] {
      assert [] + [c] == [c] && [c][1..] == [];
    } else {
      assert (calls + [c])[1..] == calls[1..] + [c];
      ClockSnoc(calls[1..], calls[0].pruned, c);
    }
  }

  lemma {:induction false} FillClock(n: nat, now: int, c: Call)
    requires now <= 1 <= c.verified <= c.pruned
    ensures Clock(Fill(n), now) && Clock(Fill(n) + [c], now)
  {
    if n > 0 {
      var last := FillCall(n - 1);
      FillClock(n - 1, now, last);
      assert Fill(n) == Fill(n - 1) + [last];
    }
    ClockSnoc(Fill(n), now, c);
  }

  /** More than 8192 nonces held, and nonce 0 forgotten while an invite for it still passes. */
  lemma SecondName(n: nat, c: Call)
    requires n == MAX_USED + 1 && Valid(c) && c.invite.nonce == 0 && c.name == "b" && c.pruned >= 10
    ensures !OneIdentity(Run(Hub(map[], {}, []), Fill(n) + [c]))
  {
    hide Run, Fill;
    FillRun(n);
    RunSnoc(Hub(map[], {}, []), Fill(n), c);
    var s := Filled(n);
    assert Prune(s.used, c.pruned) == map[];
    var t := Join(s, c).0;
    assert t.admitted[0] == (0, "a") && t.admitted[n] == (0, "b");
  }

  /** At the instant of expiry a second name is admitted on one nonce. */
  lemma ExpiryInstant() returns (calls: seq<Call>)
    ensures Clock(calls, 0) && OneExpiry(calls, _ => 10)
    ensures forall i :: 0 <= i < |calls| ==> calls[i].pruned <= calls[i].invite.exp
    ensures !OneIdentity(Run(Hub(map[], {}, []), calls))
  {
    var n, c := MAX_USED + 1, Call(Invite(true, 0, 10), "b", 10, 10);
    calls := Fill(n) + [c];
    FillClock(n, 0, c);
    SecondName(n, c);
    hide Run, Clock, OneIdentity;
  }

  /** Two invites with one nonce and two expiries let two names in, each strictly before its own expiry. */
  lemma TwoExpiries() returns (calls: seq<Call>)
    ensures Clock(calls, 0) && StrictlyBefore(calls)
    ensures !OneIdentity(Run(Hub(map[], {}, []), calls))
  {
    var n, c := MAX_USED + 1, Call(Invite(true, 0, 30), "b", 20, 20);
    calls := Fill(n) + [c];
    FillClock(n, 0, c);
    SecondName(n, c);
    hide Run, Clock, OneIdentity;
  }
}
