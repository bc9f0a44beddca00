/** The credential cache of `cmd/shed-host-agent/aws_backend.go`, keyed by server and shed.

    A `Creds` value stands for the pointer the cache holds: `id` numbers the successful
    AssumeRole calls, and `assumed[id]` is the role that call was made for. The AssumeRole call
    runs without the lock, so any number of callers interleave. */
module AWSCaches {
  import opened Basics
  import opened AWSPolicies

  datatype Creds = Creds(id: nat, expiration: int)

  datatype Pair = Pair(server: string, shed: string)

  function ServerShedKey(p: Pair): string {
    p.server + "/" + p.shed
  }

  function PolicyOf(cfg: AWSConfig, p: Pair): ResolvedAWS {
    Resolved(cfg, p.server, p.shed)
  }

  /** What a caller does after its first critical section. */
  datatype Lookup = UsePassthrough | NoRole | Cached(creds: Creds) | MustAssume(role: string)

  function Check(cfg: AWSConfig, refreshBefore: int, cache: map<string, Creds>, p: Pair, now: int): Lookup {
    var r := PolicyOf(cfg, p);
    if r.mode == PASSTHROUGH then UsePassthrough
    else if r.role == "" then NoRole
    else if ServerShedKey(p) in cache && cache[ServerShedKey(p)].expiration - now > refreshBefore then
      Cached(cache[ServerShedKey(p)])
    else MustAssume(r.role)
  }

  /** The pair has a cached session with more than `refreshBefore` left. */
  predicate HasLiveEntry(refreshBefore: int, cache: map<string, Creds>, p: Pair, now: int) {
    p.server + "/" + p.shed in cache && cache[p.server + "/" + p.shed].expiration > now + refreshBefore
  }

  /** The decision spelled out: passthrough pairs are passed through, pairs without a role are
      refused, a live entry is served as it is, and everything else assumes the pair's role. */
  lemma CheckExactly(cfg: AWSConfig, refreshBefore: int, cache: map<string, Creds>, p: Pair, now: int)
    ensures var r := Resolved(cfg, p.server, p.shed);
            var l := Check(cfg, refreshBefore, cache, p, now);
            && (l.UsePassthrough? <==> r.mode == PASSTHROUGH)
            && (l.NoRole? <==> r.mode != PASSTHROUGH && r.role == "")
            && (l.Cached? <==> r.mode != PASSTHROUGH && r.role != "" && HasLiveEntry(refreshBefore, cache, p, now))
            && (l.Cached? ==> l.creds == cache[p.server + "/" + p.shed])
            && (l.MustAssume? ==> l.role == r.role)
  {
  }

  // ---------------------------------------------------------------- the object

  /** What STS answers to one AssumeRole call. */
  datatype AssumeResult = Assumed(creds: Creds) | AssumeFailed

  datatype Reply = Vended(creds: Creds) | VendPassthrough | NoRoleConfigured | FailedToAssume

  class StsBackend {
    const cfg: AWSConfig
    const sourceProfile: string
    const refreshBefore: int
    var cache: map<string, Creds>

    constructor (cfg: AWSConfig, sourceProfile: string, refreshBefore: int)
      ensures this.cfg == cfg && this.sourceProfile == sourceProfile && this.refreshBefore == refreshBefore
      ensures cache == map[]
    {
      this.cfg, this.sourceProfile, this.refreshBefore, cache := cfg, sourceProfile, refreshBefore, map[];
    }

    /** The part of GetCredentials up to the end of the first critical section. */
    method CheckCache(p: Pair, now: int) returns (l: Lookup)
      ensures l == Check(cfg, refreshBefore, cache, p, now)
    {
      var resolved := Resolve(cfg, p.server, p.shed);
      if resolved.mode == PASSTHROUGH { return UsePassthrough; }
      var roleARN := resolved.role;
      if roleARN == "" { return NoRole; }
      var cacheKey := ServerShedKey(p);
      if cacheKey in cache {
        var cached := cache[cacheKey];
        if cached.expiration - now > refreshBefore { return Cached(cached); }
      }
      return MustAssume(roleARN);
    }

    /** The second critical section. */
    method Store(p: Pair, creds: Creds)
      modifies this
      ensures cache == old(cache)[ServerShedKey(p) := creds]
    {
      cache := cache[ServerShedKey(p) := creds];
    }

    /** One whole call with nobody in between; `answer` is what STS says if it is asked. */
    method GetCredentials(p: Pair, now: int, answer: AssumeResult) returns (r: Reply)
      modifies this
      ensures r.VendPassthrough? <==> Resolved(cfg, p.server, p.shed).mode == PASSTHROUGH
      ensures r.NoRoleConfigured? <==>
                Resolved(cfg, p.server, p.shed).mode != PASSTHROUGH && Resolved(cfg, p.server, p.shed).role == ""
      ensures r.VendPassthrough? || r.NoRoleConfigured? ==> cache == old(cache)
      ensures !r.VendPassthrough? && !r.NoRoleConfigured? ==>
                if HasLiveEntry(refreshBefore, old(cache), p, now) then
                  r == Vended(old(cache)[p.server + "/" + p.shed]) && cache == old(cache)
                else if answer.Assumed? then
                  r == Vended(answer.creds) && cache == old(cache)[p.server + "/" + p.shed := answer.creds]
                else r == FailedToAssume && cache == old(cache)
    {
      CheckExactly(cfg, refreshBefore, cache, p, now);
      var l := CheckCache(p, now);
      match l {
        case UsePassthrough => return VendPassthrough;
        case NoRole => return NoRoleConfigured;
        case Cached(creds) => return Vended(creds);
        case MustAssume(_) =>
          if answer.AssumeFailed? { return FailedToAssume; }
          Store(p, answer.creds);
          return Vended(answer.creds);
      }
    }

    /** For a passthrough pair, the source profile and the expiry its credentials file shows, if
        any; otherwise the resolved role and the expiry of the pair's cache entry, if any. */
    method Status(p: Pair, fileExpiry: Option<int>) returns (role: string, cachedUntil: Option<int>)
      ensures if PolicyOf(cfg, p).mode == PASSTHROUGH then
                role == "passthrough:" + sourceProfile && cachedUntil == fileExpiry
              else
                && role == PolicyOf(cfg, p).role
                && cachedUntil == if ServerShedKey(p) in cache then Some(cache[ServerShedKey(p)].expiration) else None
    {
      var resolved := Resolve(cfg, p.server, p.shed);
      if resolved.mode == PASSTHROUGH { return "passthrough:" + sourceProfile, fileExpiry; }
      role := resolved.role;
      if ServerShedKey(p) in cache {
        cachedUntil := Some(cache[ServerShedKey(p)].expiration);
      } else {
        cachedUntil := None;
      }
    }
  }

  // ---------------------------------------------------------------- interleaved callers

  /** How far a call got. `Returned` says whether the credentials came from the cache, and when
      they were checked. */
  datatype Phase =
    | Assuming(role: string)
    | Storing(creds: Creds)
    | Returned(creds: Creds, fromCache: bool, at: int)
    | Passthrough
    | Refused
    | Failed

  datatype Call = Call(pair: Pair, phase: Phase)

  datatype System = System(cache: map<string, Creds>, calls: seq<Call>, assumed: seq<string>)

  const EMPTY := System(map[], [], [])

  datatype Event =
    | Begin(pair: Pair, now: int)
    | StsAnswers(call: nat, expiration: int)
    | StsFails(call: nat)
    | Commit(call: nat)

  /** An event of a call that is not at that point changes nothing. */
  function Step(cfg: AWSConfig, refreshBefore: int, s: System, e: Event): System {
    match e
    case Begin(pair, now) =>
      var phase := match Check(cfg, refreshBefore, s.cache, pair, now)
        case UsePassthrough => Passthrough
        case NoRole => Refused
        case Cached(creds) => Returned(creds, true, now)
        case MustAssume(role) => Assuming(role);
      s.(calls := s.calls + [Call(pair, phase)])
    case StsAnswers(call, expiration) =>
      if call < |s.calls| && s.calls[call].phase.Assuming? then
        var c := s.calls[call];
        System(s.cache, s.calls[call := c.(phase := Storing(Creds(|s.assumed|, expiration)))],
               s.assumed + [c.phase.role])
      else s
    case StsFails(call) =>
      if call < |s.calls| && s.calls[call].phase.Assuming? then
        s.(calls := s.calls[call := s.calls[call].(phase := Failed)])
      else s
    case Commit(call) =>
      if call < |s.calls| && s.calls[call].phase.Storing? then
        var c := s.calls[call];
        s.(cache := s.cache[ServerShedKey(c.pair) := c.phase.creds],
           calls := s.calls[call := c.(phase := Returned(c.phase.creds, false, 0))])
      else s
  }

  function Run(cfg: AWSConfig, refreshBefore: int, es: seq<Event>): System {
    if es == [] then EMPTY
    else Step(cfg, refreshBefore, Run(cfg, refreshBefore, es[..|es| - 1]), es[|es| - 1])
  }

  /** Only these pairs are asked for. */
  ghost predicate Within(es: seq<Event>, ps: iset<Pair>) {
    forall e <- es :: e.Begin? ==> e.pair in ps
  }

  /** The pair is served by AssumeRole. */
  predicate Assumes(cfg: AWSConfig, p: Pair) {
    PolicyOf(cfg, p).mode != PASSTHROUGH && PolicyOf(cfg, p).role != ""
  }

  /** Two pairs share a cache entry but not a role. */
  predicate Collide(cfg: AWSConfig, p: Pair, q: Pair) {
    && Assumes(cfg, p) && Assumes(cfg, q)
    && ServerShedKey(p) == ServerShedKey(q) && PolicyOf(cfg, p).role != PolicyOf(cfg, q).role
  }

  ghost predicate NoCollision(cfg: AWSConfig, ps: iset<Pair>) {
    forall p, q :: p in ps && q in ps ==> !Collide(cfg, p, q)
  }

  /** These credentials came from an AssumeRole call for the role of `p`. */
  predicate ForRoleOf(cfg: AWSConfig, s: System, p: Pair, creds: Creds) {
    creds.id < |s.assumed| && s.assumed[creds.id] == PolicyOf(cfg, p).role
  }

  /** Whatever a call returns was assumed for the role of its pair, and what it took from the
      cache had more than `refreshBefore` left. */
  ghost predicate Safe(cfg: AWSConfig, refreshBefore: int, s: System) {
    forall c <- s.calls :: c.phase.Returned? ==>
      && ForRoleOf(cfg, s, c.pair, c.phase.creds)
      && (c.phase.fromCache ==> c.phase.creds.expiration - c.phase.at > refreshBefore)
  }

  /** The cache entry of a pair, if the pair can use it, is for its role. */
  ghost predicate CacheMatches(cfg: AWSConfig, ps: iset<Pair>, s: System) {
    forall p :: p in ps && Assumes(cfg, p) && ServerShedKey(p) in s.cache ==>
        ForRoleOf(cfg, s, p, s.cache[ServerShedKey(p)])
  }

  ghost predicate CallOk(cfg: AWSConfig, refreshBefore: int, ps: iset<Pair>, s: System, c: Call) {
    && c.pair in ps
    && (c.phase.Assuming? ==> Assumes(cfg, c.pair) && c.phase.role == PolicyOf(cfg, c.pair).role)
    && (c.phase.Storing? ==> Assumes(cfg, c.pair) && ForRoleOf(cfg, s, c.pair, c.phase.creds))
    && (c.phase.Returned? ==>
          && ForRoleOf(cfg, s, c.pair, c.phase.creds)
          && (c.phase.fromCache ==> c.phase.creds.expiration - c.phase.at > refreshBefore))
  }

  ghost predicate Inv(cfg: AWSConfig, refreshBefore: int, ps: iset<Pair>, s: System) {
    CacheMatches(cfg, ps, s) && forall i :: 0 <= i < |s.calls| ==> CallOk(cfg, refreshBefore, ps, s, s.calls[i])
  }

  lemma CommitKeepsInv(cfg: AWSConfig, refreshBefore: int, ps: iset<Pair>, s: System, call: nat)
    requires Inv(cfg, refreshBefore, ps, s) && NoCollision(cfg, ps)
    requires call < |s.calls| && s.calls[call].phase.Storing?
    ensures Inv(cfg, refreshBefore, ps, Step(cfg, refreshBefore, s, Commit(call)))
  {
    var t, c := Step(cfg, refreshBefore, s, Commit(call)), s.calls[call];
    assert CallOk(cfg, refreshBefore, ps, s, c);
    forall i | 0 <= i < |t.calls| ensures CallOk(cfg, refreshBefore, ps, t, t.calls[i]) {
      assert CallOk(cfg, refreshBefore, ps, s, s.calls[i]);
    }
    forall p | p in ps && Assumes(cfg, p) && ServerShedKey(p) in t.cache
      ensures ForRoleOf(cfg, t, p, t.cache[ServerShedKey(p)])
    {
      assert !Collide(cfg, p, c.pair);
    }
  }

  lemma BeginKeepsInv(cfg: AWSConfig, refreshBefore: int, ps: iset<Pair>, s: System, p: Pair, now: int)
    requires Inv(cfg, refreshBefore, ps, s) && p in ps
    ensures Inv(cfg, refreshBefore, ps, Step(cfg, refreshBefore, s, Begin(p, now)))
  {
    var t := Step(cfg, refreshBefore, s, Begin(p, now));
    forall i | 0 <= i < |t.calls| ensures CallOk(cfg, refreshBefore, ps, t, t.calls[i]) {
      if i < |s.calls| { assert CallOk(cfg, refreshBefore, ps, s, s.calls[i]); }
    }
  }

  lemma AnswerKeepsInv(cfg: AWSConfig, refreshBefore: int, ps: iset<Pair>, s: System, e: Event)
    requires Inv(cfg, refreshBefore, ps, s) && (e.StsAnswers? || e.StsFails?)
    ensures Inv(cfg, refreshBefore, ps, Step(cfg, refreshBefore, s, e))
  {
    var t := Step(cfg, refreshBefore, s, e);
    forall i | 0 <= i < |t.calls| ensures CallOk(cfg, refreshBefore, ps, t, t.calls[i]) {
      assert CallOk(cfg, refreshBefore, ps, s, s.calls[i]);
    }
  }

  lemma StepKeepsInv(cfg: AWSConfig, refreshBefore: int, ps: iset<Pair>, s: System, e: Event)
    requires Inv(cfg, refreshBefore, ps, s) && NoCollision(cfg, ps) && (e.Begin? ==> e.pair in ps)
    ensures Inv(cfg, refreshBefore, ps, Step(cfg, refreshBefore, s, e))
  {
    match e
    case Begin(p, now) => BeginKeepsInv(cfg, refreshBefore, ps, s, p, now);
    case Commit(call) =>
      if call < |s.calls| && s.calls[call].phase.Storing? { CommitKeepsInv(cfg, refreshBefore, ps, s, call); }
    case _ => AnswerKeepsInv(cfg, refreshBefore, ps, s, e);
  }

  lemma {:induction false} RunKeepsInv(cfg: AWSConfig, refreshBefore: int, ps: iset<Pair>, es: seq<Event>)
    requires NoCollision(cfg, ps) && Within(es, ps)
    ensures Inv(cfg, refreshBefore, ps, Run(cfg, refreshBefore, es))
  {
    if es != [] {
      var front, last := es[..|es| - 1], es[|es| - 1];
      assert last in es && forall e <- front :: e in es;
      RunKeepsInv(cfg, refreshBefore, ps, front);
      StepKeepsInv(cfg, refreshBefore, ps, Run(cfg, refreshBefore, front), last);
    }
  }

  lemma {:induction false} NoCollisionIsSafe(cfg: AWSConfig, refreshBefore: int, ps: iset<Pair>, es: seq<Event>)
    requires NoCollision(cfg, ps) && Within(es, ps)
    ensures Safe(cfg, refreshBefore, Run(cfg, refreshBefore, es))
  {
    RunKeepsInv(cfg, refreshBefore, ps, es);
    var s := Run(cfg, refreshBefore, es);
    forall c | c in s.calls && c.phase.Returned?
      ensures ForRoleOf(cfg, s, c.pair, c.phase.creds) &&
                (c.phase.fromCache ==> c.phase.creds.expiration - c.phase.at > refreshBefore)
    {
      var i :| 0 <= i < |s.calls| && s.calls[i] == c;
      assert CallOk(cfg, refreshBefore, ps, s, s.calls[i]);
    }
  }

  /** Serve `p`, then ask for `q`. */
  function Wrong(p: Pair, q: Pair, refreshBefore: int): seq<Event> {
    [Begin(p, 0), StsAnswers(0, refreshBefore + 1), Commit(0), Begin(q, 0)]
  }

  lemma CollisionIsUnsafe(cfg: AWSConfig, refreshBefore: int, p: Pair, q: Pair)
    requires Collide(cfg, p, q)
    ensures !Safe(cfg, refreshBefore, Run(cfg, refreshBefore, Wrong(p, q, refreshBefore)))
  {
    var es := Wrong(p, q, refreshBefore);
    var creds := Creds(0, refreshBefore + 1);
    var role := PolicyOf(cfg, p).role;
    assert es[..3][..2][..1][..0] == [];
    assert Run(cfg, refreshBefore, es[..3][..2][..1]) == System(map[], [Call(p, Assuming(role))], []);
    assert Run(cfg, refreshBefore, es[..3][..2]) == System(map[], [Call(p, Storing(creds))], [role]);
    var s3 := Run(cfg, refreshBefore, es[..3]);
    assert s3 == System(map[ServerShedKey(p) := creds], [Call(p, Returned(creds, false, 0))], [role]);
    var s := Run(cfg, refreshBefore, es);
    assert Check(cfg, refreshBefore, s3.cache, q, 0) == Cached(creds);
    assert s.calls[1] == Call(q, Returned(creds, true, 0)) && s.calls[1] in s.calls;
  }

  /** The cache is safe for every interleaving of callers that ask for pairs of `ps` exactly
      when no two of these pairs share a key without sharing a role. */
  lemma SafeExactly(cfg: AWSConfig, refreshBefore: int, ps: iset<Pair>)
    ensures (forall es :: Within(es, ps) ==> Safe(cfg, refreshBefore, Run(cfg, refreshBefore, es))) <==>
              NoCollision(cfg, ps)
  {
    if NoCollision(cfg, ps) {
      forall es | Within(es, ps) ensures Safe(cfg, refreshBefore, Run(cfg, refreshBefore, es)) {
        NoCollisionIsSafe(cfg, refreshBefore, ps, es);
      }
    } else {
      var p, q :| p in ps && q in ps && Collide(cfg, p, q);
      CollisionIsUnsafe(cfg, refreshBefore, p, q);
      assert Within(Wrong(p, q, refreshBefore), ps);
    }
  }

  /** A failed AssumeRole ends its call and leaves everything else, the cache included, alone. */
  lemma FailureEndsCall(cfg: AWSConfig, refreshBefore: int, s: System, i: nat)
    requires i < |s.calls| && s.calls[i].phase.Assuming?
    ensures var t := Step(cfg, refreshBefore, s, StsFails(i));
            && t.cache == s.cache && t.assumed == s.assumed && |t.calls| == |s.calls|
            && t.calls[i] == Call(s.calls[i].pair, Failed)
            && forall j :: 0 <= j < |s.calls| && j != i ==> t.calls[j] == s.calls[j]
  {
  }

  // ---------------------------------------------------------------- the key

  /** Without "/" in the server names, or with one shed name, the key tells pairs apart. */
  lemma KeyIsInjective(p: Pair, q: Pair)
    requires ServerShedKey(p) == ServerShedKey(q)
    requires ('/' !in p.server && '/' !in q.server) || p.shed == q.shed
    ensures p == q
  {
    var k := ServerShedKey(p);
    assert |k| == |p.server| + 1 + |p.shed| == |q.server| + 1 + |q.shed|;
    assert k[|p.server|] == '/' && k[|q.server|] == '/';
    assert p.server == k[..|p.server|] && q.server == k[..|q.server|];
    assert p.shed == k[|p.server| + 1..] && q.shed == k[|q.server| + 1..];
  }

  /** As long as no server name has a "/", every interleaving is safe under every policy. */
  lemma SafeWithoutSlash(cfg: AWSConfig, refreshBefore: int, es: seq<Event>)
    requires forall e <- es :: e.Begin? ==> '/' !in e.pair.server
    ensures Safe(cfg, refreshBefore, Run(cfg, refreshBefore, es))
  {
    var ps := iset p: Pair | '/' !in p.server;
    forall p, q | p in ps && q in ps ensures !Collide(cfg, p, q) {
      if ServerShedKey(p) == ServerShedKey(q) { KeyIsInjective(p, q); }
    }
    NoCollisionIsSafe(cfg, refreshBefore, ps, es);
  }

  /** A "/" in a server name does break it: the two pairs below share the key "a/b/c", and the
      second is handed a session assumed for the role of the first. */
  lemma SlashMixesRoles(refreshBefore: int)
    ensures var cfg := AWSConfig("r", "", "", map[], map["a" := AWSServerConfig("q", "", "", map[])]);
            !Safe(cfg, refreshBefore, Run(cfg, refreshBefore, Wrong(Pair("a", "b/c"), Pair("a/b", "c"), refreshBefore)))
  {
    var cfg := AWSConfig("r", "", "", map[], map["a" := AWSServerConfig("q", "", "", map[])]);
    var p, q := Pair("a", "b/c"), Pair("a/b", "c");
    OverlayOfLayers(cfg, "a", "b/c");
    OverlayOfLayers(cfg, "a/b", "c");
    OverlayOfThree(Top(cfg), OfServer(cfg.servers["a"]), Top(cfg));
    assert "a" != "a/b" by { assert |"a"| != |"a/b"|; }
    assert PolicyOf(cfg, p).role == "q" && PolicyOf(cfg, q).role == "r";
    CollisionIsUnsafe(cfg, refreshBefore, p, q);
  }

  // ---------------------------------------------------------------- who is served how

  /** In every run, exactly the passthrough pairs are passed through and exactly the pairs with
      neither passthrough nor a role are refused. */
  lemma {:induction false} ServedByPolicy(cfg: AWSConfig, refreshBefore: int, es: seq<Event>, i: nat)
    requires i < |Run(cfg, refreshBefore, es).calls|
    ensures var c := Run(cfg, refreshBefore, es).calls[i];
            var r := Resolved(cfg, c.pair.server, c.pair.shed);
            && (c.phase.Passthrough? <==> r.mode == PASSTHROUGH)
            && (c.phase.Refused? <==> r.mode != PASSTHROUGH && r.role == "")
  {
    var front, last := es[..|es| - 1], es[|es| - 1];
    if i < |Run(cfg, refreshBefore, front).calls| {
      ServedByPolicy(cfg, refreshBefore, front, i);
    } else {
      CheckExactly(cfg, refreshBefore, Run(cfg, refreshBefore, front).cache, last.pair, last.now);
    }
  }


  /** A passthrough pair never reads or writes the cache: its call is done at once, whatever is
      cached, and no event of that call ever changes anything. */
  lemma {:induction false} PassthroughNeverTouchesCache(cfg: AWSConfig, refreshBefore: int, es: seq<Event>, i: nat)
    requires i < |Run(cfg, refreshBefore, es).calls| &&
               PolicyOf(cfg, Run(cfg, refreshBefore, es).calls[i].pair).mode == PASSTHROUGH
    ensures Run(cfg, refreshBefore, es).calls[i].phase == Passthrough
    ensures forall e: Event :: !e.Begin? && e.call == i ==>
              Step(cfg, refreshBefore, Run(cfg, refreshBefore, es), e) == Run(cfg, refreshBefore, es)
  {
    var front, last := es[..|es| - 1], es[|es| - 1];
    if i < |Run(cfg, refreshBefore, front).calls| {
      PassthroughNeverTouchesCache(cfg, refreshBefore, front, i);
    }
  }
}
