/** Tagging bridges between pools (harness/bridge.py) and the registry keys of harness/meshd.py. */
module Bridge {
  import opened Prelude

  // ---- strings ----

  predicate StartsWith(s: string, prefix: string) {
    |s| >= |prefix| && s[..|prefix|] == prefix
  }

  /** str.split on one character. */
  function Split(s: string, c: char): (parts: seq<string>)
    ensures |parts| > 0
  {
    if s == "" then [""]
    else
      var rest := Split(s[1..], c);
      if s[0] == c then [""] + rest else [[s[0]] + rest[0]] + rest[1..]
  }

  lemma {:induction false} SplitPrefix(a: string, b: string, c: char)
    requires c !in a
    ensures Split(a + [c] + b, c) == [a] + Split(b, c)
  {
    if a == "" {
      assert a + [c] + b == [c] + b;
      assert ([c] + b)[1..] == b;
    } else {
      SplitPrefix(a[1..], b, c);
      assert (a + [c] + b)[1..] == a[1..] + [c] + b;
      assert [a[0]] + a[1..] == a;
    }
  }

  lemma {:induction false} SplitPlain(a: string, c: char)
    requires c !in a
    ensures Split(a, c) == [a]
  {
    if a != "" {
      SplitPlain(a[1..], c);
      assert [a[0]] + a[1..] == a;
    }
  }

  const REG: string := "reg/"
  const REG_POOL: string := "reg/POOL/"

  // ---- tags ----

  predicate Tagged(target: string) {
    StartsWith(target, REG_POOL)
  }

  predicate Registry(target: string) {
    StartsWith(target, REG)
  }

  /** _tag_target: registry targets go under the source pool, unless a pool is named already. */
  function TagTarget(pool: string, target: string): string {
    if Tagged(target) then target
    else if !Registry(target) then target
    else REG_POOL + pool + "/" + target[|REG|..]
  }

  lemma TaggedRegistry(target: string)
    requires Tagged(target)
    ensures Registry(target)
  {
    assert target[..4] == target[..9][..4];
  }

  /** A target that went through a bridge is tagged, or outside the registry. */
  lemma TagResult(pool: string, target: string)
    ensures Registry(TagTarget(pool, target)) ==> Tagged(TagTarget(pool, target))
    ensures Tagged(TagTarget(pool, target)) <==> Registry(target)
    ensures TagTarget(pool, target) == target <==> Tagged(target) || !Registry(target)
  {
    if Tagged(target) {
      TaggedRegistry(target);
    } else if Registry(target) {
      var out := REG_POOL + pool + "/" + target[|REG|..];
      assert out[..9] == REG_POOL;
    }
  }

  /** No second tag. */
  lemma TagIdempotent(pool: string, other: string, target: string)
    ensures TagTarget(other, TagTarget(pool, target)) == TagTarget(pool, target)
  {
    TagResult(pool, target);
    TagResult(other, TagTarget(pool, target));
  }

  // ---- what an accepted op feeds into the registry ----

  datatype Feedback = Feedback(key: string, ok: bool)

  predicate Truthy(value: string) {
    value == "1" || value == "1.0" || value == "True" || value == "true"
  }

  /** registry_bridge. */
  function RegistryFeedback(target: string, value: string): Option<Feedback> {
    var parts := Split(target, '/');
    if |parts| == 4 && parts[0] == "reg" then
      if parts[1] == "STRAT" then Some(Feedback("STRAT:" + parts[2] + ":" + parts[3], Truthy(value)))
      else if parts[1] == "MODEL" then Some(Feedback("MODEL:" + parts[2] + ":" + parts[3], Truthy(value)))
      else None
    else if |parts| == 6 && parts[0] == "reg" && parts[1] == "POOL" then
      if parts[3] == "STRAT" || parts[3] == "MODEL" then
        Some(Feedback("POOL:" + parts[2] + ":" + parts[3] + ":" + parts[4] + ":" + parts[5], Truthy(value)))
      else None
    else None
  }

  /** The partition a key belongs to. */
  predicate Foreign(key: string) {
    StartsWith(key, "POOL:")
  }

  lemma RegPart(target: string)
    requires |Split(target, '/')| > 1 && Split(target, '/')[0] == "reg"
    ensures Registry(target)
  {
    FirstPart(target, '/');
  }

  /** The first of several parts, and the separator, start the string. */
  lemma {:induction false} FirstPart(s: string, c: char)
    requires |Split(s, c)| > 1
    ensures StartsWith(s, Split(s, c)[0] + [c])
  {
    if s[0] == c {
      assert [] + [c] == [c];
    } else {
      FirstPart(s[1..], c);
      var head := Split(s[1..], c)[0];
      assert s[1..][..|head| + 1] == head + [c];
      assert s[..|head| + 2] == [s[0]] + s[1..][..|head| + 1];
      assert [s[0]] + (head + [c]) == [s[0]] + head + [c];
    }
  }

  lemma TaggedParts(target: string)
    requires Tagged(target)
    ensures |Split(target, '/')| >= 3 && Split(target, '/')[..2] == ["reg", "POOL"]
    ensures Split(target, '/') == ["reg", "POOL"] + Split(target[9..], '/')
  {
    hide Split;
    var rest := target[9..];
    assert target == REG_POOL + rest;
    assert REG_POOL == "reg" + ['/'] + ("POOL" + ['/']);
    assert target == "reg" + ['/'] + ("POOL" + ['/'] + rest);
    SplitPrefix("reg", "POOL" + ['/'] + rest, '/');
    SplitPrefix("POOL", rest, '/');
  }

  /** Whatever crossed a bridge stays out of the local partition of the receiving pool. */
  lemma ForeignOnly(pool: string, target: string, value: string)
    ensures
      var f := RegistryFeedback(TagTarget(pool, target), value);
      f.Some? ==> Foreign(f.value.key)
  {
    var out := TagTarget(pool, target);
    var parts := Split(out, '/');
    TagResult(pool, target);
    if |parts| > 1 && parts[0] == "reg" {
      RegPart(out);
      TaggedParts(out);
      hide Split, TagTarget;
      if |parts| == 6 && (parts[3] == "STRAT" || parts[3] == "MODEL") {
        var key := "POOL:" + parts[2] + ":" + parts[3] + ":" + parts[4] + ":" + parts[5];
        assert key[..5] == "POOL:";
      }
    }
  }

  function Target(fam: string, sig: string, strat: string): string {
    REG + fam + "/" + sig + "/" + strat
  }

  predicate Family(fam: string) {
    fam == "STRAT" || fam == "MODEL"
  }

  /** Learning under reg/<family>/<sig>/<strat> is local where it was published. */
  lemma LocalKey(fam: string, sig: string, strat: string, value: string)
    requires Family(fam) && '/' !in sig && '/' !in strat
    ensures RegistryFeedback(Target(fam, sig, strat), value) ==
            Some(Feedback(fam + ":" + sig + ":" + strat, value in {"1", "1.0", "True", "true"}))
  {
    hide Split;
    var tail := fam + ['/'] + (sig + ['/'] + strat);
    assert Target(fam, sig, strat) == "reg" + ['/'] + tail;
    TailParts(fam, sig, strat);
    SplitPrefix("reg", tail, '/');
    assert Split(Target(fam, sig, strat), '/') == ["reg", fam, sig, strat];
    assert "STRAT:" == "STRAT" + ":" && "MODEL:" == "MODEL" + ":";
  }

  /** And arrives under the name of the pool it came from. */
  lemma ForeignKey(pool: string, fam: string, sig: string, strat: string, value: string)
    requires '/' !in pool && Family(fam) && '/' !in sig && '/' !in strat
    ensures RegistryFeedback(TagTarget(pool, Target(fam, sig, strat)), value)
      == Some(Feedback("POOL:" + pool + ":" + fam + ":" + sig + ":" + strat, value in {"1", "1.0", "True", "true"}))
  {
    hide Split;
    var tail := fam + ['/'] + (sig + ['/'] + strat);
    var target := Target(fam, sig, strat);
    assert target == "reg" + ['/'] + tail && target[4..] == tail;
    LocalTarget(fam, sig, strat);
    var out := TagTarget(pool, target);
    assert out == "reg" + ['/'] + ("POOL" + ['/'] + (pool + ['/'] + tail));
    ForeignParts(pool, fam, sig, strat);
  }

  lemma ForeignParts(pool: string, fam: string, sig: string, strat: string)
    requires '/' !in pool && Family(fam) && '/' !in sig && '/' !in strat
    ensures Split("reg" + ['/'] + ("POOL" + ['/'] + (pool + ['/'] + (fam + ['/'] + (sig + ['/'] + strat)))), '/')
      == ["reg", "POOL", pool, fam, sig, strat]
  {
    hide Split;
    var tail := fam + ['/'] + (sig + ['/'] + strat);
    TailParts(fam, sig, strat);
    SplitPrefix("reg", "POOL" + ['/'] + (pool + ['/'] + tail), '/');
    SplitPrefix("POOL", pool + ['/'] + tail, '/');
    SplitPrefix(pool, tail, '/');
  }

  lemma TailParts(fam: string, sig: string, strat: string)
    requires '/' !in fam && '/' !in sig && '/' !in strat
    ensures Split(fam + ['/'] + (sig + ['/'] + strat), '/') == [fam, sig, strat]
  {
    SplitPrefix(fam, sig + ['/'] + strat, '/');
    SplitPrefix(sig, strat, '/');
    SplitPlain(strat, '/');
  }

  lemma LocalTarget(fam: string, sig: string, strat: string)
    requires Family(fam)
    ensures !Tagged(Target(fam, sig, strat)) && Registry(Target(fam, sig, strat))
  {
    var target := Target(fam, sig, strat);
    assert target[..4] == REG;
    assert target[4] == fam[0];
    NotTagged(target);
  }

  lemma NotTagged(target: string)
    requires |target| > 4 && target[4] != 'P'
    ensures !Tagged(target)
  {
    if |target| >= 9 { assert target[..9][4] == target[4] && REG_POOL[4] == 'P'; }
  }

  // ---- nothing else feeds anything ----

  function JoinedBy(parts: seq<string>, c: char): string {
    if parts == [] then "" else if |parts| == 1 then parts[0] else parts[0] + [c] + JoinedBy(parts[1..], c)
  }

  lemma {:induction false} SplitJoined(s: string, c: char)
    ensures JoinedBy(Split(s, c), c) == s
    ensures forall i :: 0 <= i < |Split(s, c)| ==> c !in Split(s, c)[i]
  {
    if s == "" {
    } else {
      var rest := Split(s[1..], c);
      SplitJoined(s[1..], c);
      if s[0] == c {
        assert ([""] + rest)[1..] == rest;
        assert "" + [c] + s[1..] == s;
      } else {
        var parts := [[s[0]] + rest[0]] + rest[1..];
        assert parts[1..] == rest[1..];
        if |rest| > 1 {
          assert [s[0]] + rest[0] + [c] + JoinedBy(rest[1..], c) == [s[0]] + (rest[0] + [c] + JoinedBy(rest[1..], c));
        }
        assert [s[0]] + s[1..] == s;
      }
    }
  }

  /** An op that feeds the registry came under one of the two kinds of target, of which LocalKey and ForeignKey say what
      they feed. */
  lemma OnlySuch(target: string, value: string) returns (pool: string, fam: string, sig: string, strat: string)
    requires RegistryFeedback(target, value).Some?
    ensures '/' !in pool && Family(fam) && '/' !in sig && '/' !in strat
    ensures target == Target(fam, sig, strat) || target == TagTarget(pool, Target(fam, sig, strat))
  {
    var parts := Split(target, '/');
    SplitJoined(target, '/');
    hide Split;
    if |parts| == 4 {
      pool, fam, sig, strat := "", parts[1], parts[2], parts[3];
      FourParts(parts);
    } else {
      pool, fam, sig, strat := parts[2], parts[3], parts[4], parts[5];
      SixParts(parts);
      LocalTarget(fam, sig, strat);
    }
  }

  lemma JoinFirst(first: string, rest: seq<string>, c: char)
    requires rest != []
    ensures JoinedBy([first] + rest, c) == first + [c] + JoinedBy(rest, c)
  {
    assert ([first] + rest)[1..] == rest;
  }

  lemma FourParts(p: seq<string>)
    requires |p| == 4 && p[0] == "reg"
    ensures JoinedBy(p, '/') == Target(p[1], p[2], p[3])
    ensures JoinedBy(p, '/') == "reg" + ['/'] + JoinedBy([p[1], p[2], p[3]], '/')
  {
    JoinFirst(p[2], [p[3]], '/');
    JoinFirst(p[1], [p[2], p[3]], '/');
    JoinFirst(p[0], [p[1], p[2], p[3]], '/');
    assert JoinedBy([p[3]], '/') == p[3];
    hide JoinedBy;
    assert [p[2]] + [p[3]] == [p[2], p[3]] && [p[1]] + [p[2], p[3]] == [p[1], p[2], p[3]];
    assert [p[0]] + [p[1], p[2], p[3]] == p;
    assert "reg" + ['/'] + (p[1] + ['/'] + (p[2] + ['/'] + p[3])) == Target(p[1], p[2], p[3]);
  }

  lemma SixParts(p: seq<string>)
    requires |p| == 6 && p[0] == "reg" && p[1] == "POOL" && Family(p[3])
    ensures JoinedBy(p, '/') == TagTarget(p[2], Target(p[3], p[4], p[5]))
  {
    hide JoinedBy, TagTarget, Target;
    var target, tail := Target(p[3], p[4], p[5]), [p[3], p[4], p[5]];
    FourParts(["reg", p[3], p[4], p[5]]);
    LocalTarget(p[3], p[4], p[5]);
    Tagging(p[2], target);
    JoinFirst(p[2], tail, '/');
    JoinFirst(p[1], [p[2]] + tail, '/');
    JoinFirst(p[0], [p[1]] + ([p[2]] + tail), '/');
    assert [p[0]] + ([p[1]] + ([p[2]] + tail)) == p;
    Slashes(p[2], JoinedBy(tail, '/'));
    assert target[4..] == JoinedBy(tail, '/');
  }

  lemma Slashes(pool: string, rest: string)
    ensures "reg" + ['/'] + ("POOL" + ['/'] + (pool + ['/'] + rest)) == "reg/POOL/" + pool + "/" + rest
  {
  }

  lemma Tagging(pool: string, target: string)
    requires Registry(target) && !Tagged(target)
    ensures TagTarget(pool, target) == "reg/POOL/" + pool + "/" + target[4..]
  {
  }

  // ---- policies ----

  /** fnmatch with the wildcards * and ?. */
  predicate Matches(s: string, pattern: string)
    decreases |s| + |pattern|
  {
    if pattern == "" then s == ""
    else if pattern[0] == '*' then Matches(s, pattern[1..]) || (s != "" && Matches(s[1..], pattern))
    else s != "" && (pattern[0] == '?' || pattern[0] == s[0]) && Matches(s[1..], pattern[1..])
  }

  lemma {:induction false} StarMatches(s: string)
    ensures Matches(s, "*")
  {
    if s == "" {
      assert "*"[1..] == "";
      assert Matches("", "");
    } else {
      StarMatches(s[1..]);
    }
  }

  predicate Plain(prefix: string) {
    '*' !in prefix && '?' !in prefix && '[' !in prefix
  }

  lemma {:induction false} PrefixPattern(s: string, prefix: string)
    requires Plain(prefix)
    ensures Matches(s, prefix + "*") <==> StartsWith(s, prefix)
  {
    if prefix == "" {
      assert prefix + "*" == "*";
      StarMatches(s);
    } else {
      assert (prefix + "*")[1..] == prefix[1..] + "*";
      if s != "" {
        PrefixPattern(s[1..], prefix[1..]);
        if |s| >= |prefix| {
          assert s[..|prefix|] == [s[0]] + s[1..][..|prefix| - 1];
          assert prefix == [prefix[0]] + prefix[1..];
        }
      }
    }
  }

  /** A pattern without wildcards matches itself only. */
  lemma {:induction false} PlainPattern(s: string, pattern: string)
    requires Plain(pattern)
    ensures Matches(s, pattern) <==> s == pattern
  {
    if pattern != "" && s != "" {
      PlainPattern(s[1..], pattern[1..]);
      assert s == [s[0]] + s[1..] && pattern == [pattern[0]] + pattern[1..];
    }
  }

  /** A question mark stands for one character, whichever it is. */
  lemma {:induction false} QuestionPattern(s: string, front: string, back: string)
    requires Plain(front) && Plain(back)
    ensures Matches(s, front + "?" + back) <==>
      |s| == |front| + 1 + |back| && s[..|front|] == front && s[|front| + 1..] == back
  {
    if front == "" {
      assert front + "?" + back == "?" + back && ("?" + back)[1..] == back;
      if s != "" { PlainPattern(s[1..], back); }
    } else {
      assert (front + "?" + back)[1..] == front[1..] + "?" + back;
      if s != "" {
        var n := |front| - 1;
        QuestionPattern(s[1..], front[1..], back);
        if |s| > |front| {
          assert s[..n + 1] == [s[0]] + s[1..][..n] && s[1..][n + 1..] == s[n + 2..];
          assert front == [front[0]] + front[1..];
        }
      }
    }
  }

  /** A star stands for any string, the empty one too. */
  lemma {:induction false} StarPattern(s: string, front: string, back: string)
    requires Plain(front) && Plain(back)
    ensures Matches(s, front + "*" + back) <==>
      |s| >= |front| + |back| && s[..|front|] == front && s[|s| - |back|..] == back
    decreases |front|, |s|
  {
    if front == "" {
      assert front + "*" + back == "*" + back && ("*" + back)[1..] == back;
      PlainPattern(s, back);
      if s != "" {
        StarPattern(s[1..], front, back);
        if |s| > |back| {
          assert s[1..][|s[1..]| - |back|..] == s[|s| - |back|..];
        } else if |s| == |back| {
          assert s[|s| - |back|..] == s;
        }
      }
    } else {
      assert (front + "*" + back)[1..] == front[1..] + "*" + back;
      if s != "" {
        var n := |front| - 1;
        StarPattern(s[1..], front[1..], back);
        if |s| >= |front| + |back| {
          assert s[..n + 1] == [s[0]] + s[1..][..n] && s[1..][|s[1..]| - |back|..] == s[|s| - |back|..];
          assert front == [front[0]] + front[1..];
        }
      }
    }
  }

  datatype Policy = Policy(allowTargets: seq<string>, minimize: bool)

  /** BridgePolicy.allows. */
  predicate Allows(p: Policy, target: string) {
    (p.minimize ==> Registry(target)) && exists i :: 0 <= i < |p.allowTargets| && Matches(target, p.allowTargets[i])
  }

  /** The policy a bridge has when none is given. */
  const DEFAULT: Policy := Policy(["reg/STRAT/*"], true)

  /** Only registry targets that no bridge has tagged yet. */
  predicate UntaggedOnly(p: Policy, target: string) {
    Allows(p, target) ==> Registry(target) && !Tagged(target)
  }

  lemma DefaultUntagged(target: string)
    ensures Allows(DEFAULT, target) <==> StartsWith(target, "reg/STRAT/")
    ensures UntaggedOnly(DEFAULT, target)
  {
    PrefixPattern(target, "reg/STRAT/");
    assert "reg/STRAT/" + "*" == "reg/STRAT/*";
    assert DEFAULT.allowTargets[0] == "reg/STRAT/*";
    if StartsWith(target, "reg/STRAT/") {
      assert target[..4] == target[..10][..4];
      assert target[..10][4] == 'S';
      NotTagged(target);
    }
  }

  class BridgePolicy {
    const policy: Policy
    const started: int
    const ttl: int
    var logLines: seq<(string, bool, string)>

    constructor (policy: Policy, started: int, ttl: int)
      ensures this.policy == policy && this.started == started && this.ttl == ttl && logLines == []
    {
      this.policy, this.started, this.ttl, logLines := policy, started, ttl, [];
    }

    predicate Live(now: int) {
      now - started <= ttl
    }

    /** check: the verdict, and one line in the log that says why. */
    method Check(target: string, now: int) returns (ok: bool)
      modifies this
      ensures ok == (Live(now) && Allows(policy, target))
      ensures ok <==>
        && now - started <= ttl && (policy.minimize ==> |target| >= 4 && target[..4] == "reg/")
        && exists i :: 0 <= i < |policy.allowTargets| && Matches(target, policy.allowTargets[i])
      ensures |logLines| == |old(logLines)| + 1 && logLines[..|old(logLines)|] == old(logLines)
      ensures logLines[|old(logLines)|] == (target, ok,
        if !Live(now) then "bridge expired"
        else if ok then "policy ok"
        else if policy.minimize && !Registry(target) then "data minimization (outside reg/)"
        else "not in allow_targets")
    {
      if now - started > ttl {
        logLines := logLines + [(target, false, "bridge expired")];
        return false;
      }
      if !Allows(policy, target) {
        logLines := logLines + [(target, false,
          if !policy.minimize || Registry(target) then "not in allow_targets" else "data minimization (outside reg/)")];
        return false;
      }
      logLines := logLines + [(target, true, "policy ok")];
      ok := true;
    }
  }

  /** `publish` takes shorter targets only. */
  const MAX_TARGET: nat := 96

  class PoolBridge {
    const policy: BridgePolicy
    const tagSource: bool
    var relayed: nat
    var denied: nat

    constructor (policy: BridgePolicy, tagSource: bool)
      ensures this.policy == policy && this.tagSource == tagSource && relayed == 0 && denied == 0
    {
      this.policy, this.tagSource, relayed, denied := policy, tagSource, 0, 0;
    }

    /** The target under which the other side publishes. */
    function Out(srcPool: string, target: string): string {
      if tagSource then TagTarget(srcPool, target) else target
    }

    /** The handler of one direction: what is published at the other side, if anything. A target that the tag made too
        long for `publish` raises there; the handler catches that and counts nothing. */
    method Relay(srcPool: string, target: string, now: int) returns (out: Option<string>)
      modifies this, policy
      ensures
        var ok := policy.Live(now) && Allows(policy.policy, target);
        && out == (if ok && |Out(srcPool, target)| < 96 then Some(Out(srcPool, target)) else None)
        && relayed == old(relayed) + (if out.Some? then 1 else 0)
        && denied == old(denied) + (if ok then 0 else 1)
    {
      var ok := policy.Check(target, now);
      if !ok {
        denied := denied + 1;
        return None;
      }
      var o := target;
      if tagSource { o := TagTarget(srcPool, target); }
      if |o| >= MAX_TARGET { return None; }
      relayed := relayed + 1;
      out := Some(o);
    }
  }

  // ---- handlers of a daemon shared by several bridges ----

  datatype Handler = Single(id: nat) | Chained(prev: Handler, id: nat)

  /** _chain_on_op: the handler that is there already keeps running, before the new one. */
  function ChainOnOp(on: Option<Handler>, id: nat): Handler {
    if on.None? then Single(id) else Chained(on.value, id)
  }

  function Called(h: Handler): seq<nat> {
    match h
    case Single(id) => [id]
    case Chained(prev, id) => Called(prev) + [id]
  }

  function Attached(ids: seq<nat>): Option<Handler> {
    if ids == [] then None else Some(ChainOnOp(Attached(ids[..|ids| - 1]), ids[|ids| - 1]))
  }

  /** All handlers run, each once, in the order they were attached. */
  lemma {:induction false} AllCalled(ids: seq<nat>)
    requires ids != []
    ensures Called(Attached(ids).value) == ids
  {
    var n := |ids| - 1;
    if n > 0 { AllCalled(ids[..n]); }
    assert ids[..n] + [ids[n]] == ids;
  }
}
