/** The proactive refresh loop of `cmd/shed-host-agent/credmint.go`: the jittered delay and
    what it guarantees over time. Durations are nanoseconds. */
module RefreshLoop {
  import opened Basics
  import opened Targets
  import opened CredentialSources

  const SECOND := 1_000_000_000
  const MINUTE := 60 * SECOND
  const DEFAULT_REFRESH_DELAY := HOUR
  const MIN_REFRESH_DELAY := MINUTE
  const MAX_REFRESH_DELAY := 12 * HOUR

  /** Go's conversion of a float to an integer: towards zero. */
  function Trunc(x: real): int {
    if x >= 0.0 then x.Floor else -((-x).Floor)
  }

  function Base(expiry: Option<int>, now: int): int {
    if expiry.None? then DEFAULT_REFRESH_DELAY
    else if expiry.value - now > 0 then (expiry.value - now) / 2
    else MIN_REFRESH_DELAY
  }

  const JITTER_FRACTION := 0.25

  /** A jitter the random source can produce for this base: at least minus a quarter of it,
      below plus a quarter of it (zero for a zero base). */
  predicate Draw(x: real, base: int) {
    -JITTER_FRACTION * (base as real) <= x && (x < JITTER_FRACTION * (base as real) || x == 0.0)
  }

  /** `x` is the jitter, a real; the code truncates it to whole nanoseconds. */
  function NextRefreshDelay(expiry: Option<int>, now: int, x: real): int {
    MinInt(MaxInt(Base(expiry, now) + Trunc(x), MIN_REFRESH_DELAY), MAX_REFRESH_DELAY)
  }

  // ---------------------------------------------------------------- one delay

  /** The code's jitter, (2r - 1) * JITTER_FRACTION * base for r in [0, 1), is a Draw. */
  lemma RandomIsDraw(r: real, base: int)
    requires 0.0 <= r < 1.0 && base >= 0
    ensures Draw((2.0 * r - 1.0) * JITTER_FRACTION * (base as real), base)
  {
    Scaled((2.0 * r - 1.0) * JITTER_FRACTION, base as real);
  }

  lemma Scaled(a: real, b: real)
    requires -0.25 <= a < 0.25 && b >= 0.0
    ensures -0.25 * b <= a * b <= 0.25 * b
    ensures if b > 0.0 then a * b < 0.25 * b else a * b == 0.0
  {
    assert (a + 0.25) * b >= 0.0;
    assert (0.25 - a) * b >= 0.0;
    if b > 0.0 { assert (0.25 - a) * b > 0.0; }
  }

  /** Truncated, the jitter stays within a quarter of the base, and strictly below it on the
      high side. */
  lemma JitterBounds(x: real, base: int)
    requires Draw(x, base) && base >= 0
    ensures -base <= 4 * Trunc(x) <= base
    ensures base > 0 ==> 4 * Trunc(x) < base
  {
    TruncBounds(x);
    assert (4 * Trunc(x)) as real == 4.0 * (Trunc(x) as real);
  }

  lemma TruncBounds(x: real)
    ensures x >= 0.0 ==> 0.0 <= Trunc(x) as real <= x
    ensures x <= 0.0 ==> x <= Trunc(x) as real <= 0.0
  {
    if x < 0.0 {
      var f := (-x).Floor;
      assert f as real <= -x;
      assert Trunc(x) as real == -(f as real);
    }
  }

  /** Every delay, in every situation, lies between one minute and twelve hours. */
  lemma DelayInRange(expiry: Option<int>, now: int, x: real)
    ensures MIN_REFRESH_DELAY <= NextRefreshDelay(expiry, now, x) <= MAX_REFRESH_DELAY
  {
  }

  /** The delay by situation: around an hour without a mint so far, around half the remaining
      life, and around a minute once expired; each within a quarter, and clamped. */
  lemma DelayBySituation(expiry: Option<int>, now: int, x: real)
    requires Draw(x, Base(expiry, now))
    ensures var d := NextRefreshDelay(expiry, now, x);
      && (expiry.None? ==> d == HOUR + Trunc(x) && 45 * MINUTE <= d <= 75 * MINUTE)
      && (expiry.Some? && expiry.value <= now ==> d == MINUTE + MaxInt(0, Trunc(x)) && MINUTE <= d <= 75 * SECOND)
      && (expiry.Some? && expiry.value > now ==>
            var half := (expiry.value - now) / 2;
            && (MINUTE <= half + Trunc(x) <= 12 * HOUR ==> d == half + Trunc(x))
            && MinInt(4 * 12 * HOUR, 3 * half) <= 4 * d <= MaxInt(4 * MINUTE, 5 * half))
  {
    JitterBounds(x, Base(expiry, now));
  }

  /** With at least 96 seconds of life left, the next attempt comes while at least three
      eighths of that life remain. */
  lemma AttemptLeavesThreeEighths(expiry: int, now: int, x: real)
    requires Draw(x, Base(Some(expiry), now)) && expiry - now >= 96 * SECOND
    ensures 8 * (expiry - (now + NextRefreshDelay(Some(expiry), now, x))) >= 3 * (expiry - now)
  {
    JitterBounds(x, Base(Some(expiry), now));
  }

  // ---------------------------------------------------------------- while mints fail

  /** One tick of the loop against a given mint result. */
  function Tick(s: Source, result: MintResult): Source
    requires s.inflight.None? && s.terminalErr.None?
  {
    var (s', k) := Obtain(s);
    Commit(s', k, result)
  }

  /** One round of the loop: the jitter of its delay and what the mint then answers. */
  datatype Round = Round(jitter: real, result: MintResult)

  /** The source and the clock after these rounds, with nobody else at the source. A latched
      source goes on waiting but mints no more. */
  function Rounds(s: Source, start: int, rounds: seq<Round>): (r: (Source, int))
    requires s.inflight.None?
    ensures r.0.inflight.None?
  {
    if rounds == [] then (s, start)
    else
      var last := rounds[|rounds| - 1];
      var (s', now) := Rounds(s, start, rounds[..|rounds| - 1]);
      (if s'.terminalErr.Some? then s' else Tick(s', last.result), now + NextRefreshDelay(s'.expiry, now, last.jitter))
  }

  /** The loop on the object. */
  method RunRefreshLoop(src: CredentialSource, start: int, rounds: seq<Round>) returns (now: int)
    requires src.Valid() && src.inflight == null
    modifies src
    ensures src.Valid() && src.inflight == null
    ensures (src.Abs(), now) == Rounds(old(src.Abs()), start, rounds)
  {
    now := start;
    for i := 0 to |rounds|
      invariant src.Valid() && src.inflight == null
      invariant (src.Abs(), now) == Rounds(old(src.Abs()), start, rounds[..i])
      invariant forall m <- src.started :: m in old(src.started) || fresh(m)
    {
      assert rounds[..i + 1][..i] == rounds[..i];
      now := now + NextRefreshDelay(src.expiry, now, rounds[i].jitter);
      ghost var before := src.started;
      assert forall m <- before :: m.done;
      var call := src.RefreshLocked();
      if call != null {
        assert !call.done && call !in before;
        src.MintDone(call, |src.started| - 1, rounds[i].result);
      }
    }
    assert rounds[..|rounds|] == rounds;
  }

  /** A failed tick leaves the token and its expiry as they were. */
  lemma FailedTickKeepsToken(s: Source, message: string)
    requires s.inflight.None? && s.terminalErr.None?
    ensures var t := Tick(s, MintFailed(message));
      t.token == s.token && t.expiry == s.expiry && t.inflight.None? && t.terminalErr.None?
  {
  }

  /** The state of the loop after `i` failing attempts, from time `start`: attempt `i` happens
      at the time of its own delay, computed after the previous failure. */
  function FailingRun(s: Source, start: int, draws: seq<real>, i: nat): (Source, int)
    requires s.inflight.None? && s.terminalErr.None? && i <= |draws|
    ensures FailingRun(s, start, draws, i).0.inflight.None? && FailingRun(s, start, draws, i).0.terminalErr.None?
    ensures FailingRun(s, start, draws, i).0.expiry == s.expiry
  {
    if i == 0 then (s, start)
    else
      var (s', now) := FailingRun(s, start, draws, i - 1);
      (Tick(s', MintFailed("")), now + NextRefreshDelay(s'.expiry, now, draws[i - 1]))
  }

  function Failures(draws: seq<real>): (rounds: seq<Round>)
    ensures |rounds| == |draws|
  {
    if draws == [] then [] else Failures(draws[..|draws| - 1]) + [Round(draws[|draws| - 1], MintFailed(""))]
  }

  /** It is what the loop does when every mint fails. */
  lemma {:induction false} FailingRunIsTheLoop(s: Source, start: int, draws: seq<real>, i: nat)
    requires s.inflight.None? && s.terminalErr.None? && i <= |draws|
    ensures FailingRun(s, start, draws, i) == Rounds(s, start, Failures(draws[..i]))
  {
    if i > 0 {
      FailingRunIsTheLoop(s, start, draws, i - 1);
      var rounds := Failures(draws[..i]);
      assert draws[..i][..i - 1] == draws[..i - 1];
      assert rounds[..i - 1] == Failures(draws[..i - 1]);
    }
  }

  /** Every one of the first `k` delays uses a jitter possible for its base. */
  predicate PossibleDraws(s: Source, start: int, draws: seq<real>, k: nat)
    requires s.inflight.None? && s.terminalErr.None? && k <= |draws|
  {
    forall i: nat :: i < k ==> Draw(draws[i], Base(s.expiry, FailingRun(s, start, draws, i).1))
  }

  /** L scaled by (3/8)^i. */
  function LifeFloor(life: real, i: nat): real {
    if i == 0 then life else 0.375 * LifeFloor(life, i - 1)
  }

  /** After `i` failed attempts at least (3/8)^i of the life is left, as long as that many
      attempts each started from at least 96 seconds. */
  lemma {:induction false} LifeAfterFailures(s: Source, start: int, draws: seq<real>, i: nat)
    requires s.inflight.None? && s.terminalErr.None? && s.expiry.Some? && i <= |draws|
    requires PossibleDraws(s, start, draws, i)
    requires i > 0 ==> LifeFloor((s.expiry.value - start) as real, i - 1) >= 96.0 * (SECOND as real)
    ensures (s.expiry.value - FailingRun(s, start, draws, i).1) as real
            >= LifeFloor((s.expiry.value - start) as real, i)
  {
    if i > 0 {
      var life := (s.expiry.value - start) as real;
      if i > 1 { FloorShrinks(life, i - 1); }
      LifeAfterFailures(s, start, draws, i - 1);
      var (s', now) := FailingRun(s, start, draws, i - 1);
      var left := s.expiry.value - now;
      AttemptLeavesThreeEighths(s.expiry.value, now, draws[i - 1]);
      assert (8 * (left - NextRefreshDelay(s'.expiry, now, draws[i - 1]))) as real >= (3 * left) as real;
    }
  }

  lemma FloorShrinks(life: real, i: nat)
    requires i > 0 && LifeFloor(life, i) > 0.0
    ensures LifeFloor(life, i - 1) >= LifeFloor(life, i)
  {
  }

  /** A token with life L gets at least `k` attempts before it expires whenever
      (3/8)^(k-1) L is at least 96 seconds, however the jitter falls. */
  lemma {:induction false} AttemptsBeforeExpiry(s: Source, start: int, draws: seq<real>, k: nat)
    requires s.inflight.None? && s.terminalErr.None? && s.expiry.Some?
    requires 0 < k <= |draws| && PossibleDraws(s, start, draws, k)
    requires LifeFloor((s.expiry.value - start) as real, k - 1) >= 96.0 * (SECOND as real)
    ensures FailingRun(s, start, draws, k).1 < s.expiry.value
  {
    LifeAfterFailures(s, start, draws, k);
  }

  // ---------------------------------------------------------------- while mints succeed

  /** The shortest lifetime for which a refresh always comes outside the stale window. */
  const FRESH_TTL := 5 * HOUR + 20 * MINUTE - 1

  /** Whatever the jitter, the next tick comes before `expiry` is inside the stale window. */
  ghost predicate RefreshedInTime(expiry: Option<int>, now: int, base: int) {
    forall x :: Draw(x, base) ==> !Stale(expiry, now + NextRefreshDelay(expiry, now, x))
  }

  /** A fresh token of lifetime `ttl` is refreshed with more than the stale window left, for
      every jitter, exactly when `ttl` is at least FRESH_TTL. */
  lemma FreshExactly(ttl: int, now: int)
    requires ttl > TOKEN_REFRESH_WINDOW
    ensures RefreshedInTime(Some(now + ttl), now, Base(Some(now + ttl), now)) <==> ttl >= FRESH_TTL
  {
    var base := Base(Some(now + ttl), now);
    if ttl >= FRESH_TTL {
      forall x | Draw(x, base) ensures !Stale(Some(now + ttl), now + NextRefreshDelay(Some(now + ttl), now, x)) {
        JitterBounds(x, base);
      }
    } else {
      var worst := ((base - 1) / 4) as real;
      assert 4.0 * worst == (4 * ((base - 1) / 4)) as real < base as real;
      assert Draw(worst, base) && Trunc(worst) == (base - 1) / 4;
      assert Stale(Some(now + ttl), now + NextRefreshDelay(Some(now + ttl), now, worst));
    }
  }

  /** The loop in time: the clock, the pending timer, and the source it refreshes. */
  datatype Loop = Loop(now: int, timer: int, src: Source)

  /** Time passes up to the timer; the timer fires and the refresh mints at once; a Token
      caller comes in; a caller forces a new mint between two ticks. Every mint succeeds at
      once with a non-empty token of the same lifetime. */
  datatype Moment = Wait(until: int) | Fire(fired: string, jitter: real) | Ask(minted: string) | Force(forced: string)

  predicate Possible(l: Loop, m: Moment, ttl: int) {
    && l.src.inflight.None? && l.src.terminalErr.None?
    && match m
       case Wait(until) => l.now <= until <= l.timer
       case Fire(fired, x) => l.now == l.timer && fired != "" && Draw(x, Base(Some(l.now + ttl), l.now))
       case Ask(minted) => minted != ""
       case Force(forced) => forced != ""
  }

  /** A Token call at this moment; when it has to wait, its mint completes at once. */
  function Serve(src: Source, force: bool, now: int, token: string, ttl: int): Source
    requires src.inflight.None?
  {
    var (s', entered) := EnterToken(src, force, now);
    if entered.Joined? then Commit(s', entered.call, Minted(token, Some(now + ttl))) else s'
  }

  function Advance(l: Loop, m: Moment, ttl: int): Loop
    requires Possible(l, m, ttl)
  {
    match m
    case Wait(until) => l.(now := until)
    case Fire(fired, x) =>
      var src := Tick(l.src, Minted(fired, Some(l.now + ttl)));
      l.(src := src, timer := l.now + NextRefreshDelay(src.expiry, l.now, x))
    case Ask(minted) => l.(src := Serve(l.src, false, l.now, minted, ttl))
    case Force(forced) => l.(src := Serve(l.src, true, l.now, forced, ttl))
  }

  /** What each moment does to the cached pair: waiting nothing; the timer and a forced call store
      a new one of full lifetime; an ordinary call does so only when the cached one cannot be
      served; and only the timer sets the timer. */
  lemma MomentsExactly(l: Loop, m: Moment, ttl: int)
    requires Possible(l, m, ttl)
    ensures var a := Advance(l, m, ttl);
            var kept := a.src.token == l.src.token && a.src.expiry == l.src.expiry && a.src.calls == l.src.calls;
            && (m.Wait? ==> kept && a.now == m.until && a.timer == l.timer)
            && (m.Fire? ==> a.src.token == m.fired && a.src.expiry == Some(l.now + ttl) && a.now == l.now
                            && a.timer == l.now + NextRefreshDelay(Some(l.now + ttl), l.now, m.jitter))
            && (m.Force? ==> a.src.token == m.forced && a.src.expiry == Some(l.now + ttl) && a.timer == l.timer)
            && (m.Ask? ==> a.timer == l.timer
                           && if l.src.token != "" && !Stale(l.src.expiry, l.now) then kept
                              else a.src.token == m.minted && a.src.expiry == Some(l.now + ttl))
  {
  }

  function Evolve(target: ServerTarget, start: int, first: real, ttl: int, ms: seq<Moment>): Option<Loop> {
    if ms == [] then
      Some(Loop(start, start + NextRefreshDelay(None, start, first), NewSource(target)))
    else
      var before := Evolve(target, start, first, ttl, ms[..|ms| - 1]);
      if before.Some? && Possible(before.value, ms[|ms| - 1], ttl)
      then Some(Advance(before.value, ms[|ms| - 1], ttl)) else None
  }

  /** The pending timer always lies outside the current token's stale window, and before the
      first mint it is at most a jittered hour away. */
  predicate Fresh(l: Loop, ttl: int) {
    && l.src.inflight.None? && l.src.terminalErr.None?
    && l.now <= l.timer
    && (l.src.expiry.None? <==> l.src.token == "")
    && (l.src.expiry.None? ==> l.timer - l.now <= HOUR + HOUR / 4)
    && (l.src.expiry.Some? ==> l.src.expiry.value <= l.now + ttl && !Stale(l.src.expiry, l.timer))
  }

  lemma MomentKeepsFresh(l: Loop, m: Moment, ttl: int)
    requires ttl >= FRESH_TTL && Fresh(l, ttl) && Possible(l, m, ttl)
    ensures Fresh(Advance(l, m, ttl), ttl)
  {
    match m
    case Fire(fired, x) =>
      FreshExactly(ttl, l.now);
      DelayInRange(Some(l.now + ttl), l.now, x);
      assert Advance(l, m, ttl).src.expiry == Some(l.now + ttl);
    case _ =>
  }

  lemma {:induction false} LoopStaysFresh(target: ServerTarget, start: int, first: real, ttl: int, ms: seq<Moment>)
    requires ttl >= FRESH_TTL && Draw(first, DEFAULT_REFRESH_DELAY) && Evolve(target, start, first, ttl, ms).Some?
    ensures Fresh(Evolve(target, start, first, ttl, ms).value, ttl)
  {
    if ms == [] {
      JitterBounds(first, DEFAULT_REFRESH_DELAY);
    } else {
      LoopStaysFresh(target, start, first, ttl, ms[..|ms| - 1]);
      MomentKeepsFresh(Evolve(target, start, first, ttl, ms[..|ms| - 1]).value, ms[|ms| - 1], ttl);
    }
  }

  /** At every moment after the first mint, for every jitter, first timer and mid-wait mint,
      the token is outside the stale window, so a Token call is served from the cache and
      never waits for a mint. */
  lemma TokenNeverBlocks(target: ServerTarget, start: int, first: real, ttl: int, ms: seq<Moment>)
    requires ttl >= FRESH_TTL && Draw(first, DEFAULT_REFRESH_DELAY) && Evolve(target, start, first, ttl, ms).Some?
    ensures var l := Evolve(target, start, first, ttl, ms).value;
      l.src.calls != [] ==>
        && !Stale(l.src.expiry, l.now)
        && EnterToken(l.src, false, l.now) == (l.src, Cached(l.src.token, l.src.expiry))
  {
    LoopStaysFresh(target, start, first, ttl, ms);
    MintedOnce(target, start, first, ttl, ms);
  }

  lemma {:induction false} MintedOnce(target: ServerTarget, start: int, first: real, ttl: int, ms: seq<Moment>)
    requires Evolve(target, start, first, ttl, ms).Some?
    ensures var src := Evolve(target, start, first, ttl, ms).value.src; src.calls != [] ==> src.token != ""
  {
    if ms != [] { MintedOnce(target, start, first, ttl, ms[..|ms| - 1]); }
  }

  /** Once there has been a mint, a Token call is served from the cache. */
  predicate NeverBlocks(target: ServerTarget, start: int, first: real, ttl: int, ms: seq<Moment>) {
    var l := Evolve(target, start, first, ttl, ms);
    l.Some? && l.value.src.calls != [] ==> EnterToken(l.value.src, false, l.value.now).1.Cached?
  }

  /** Wait for the first timer, mint with this jitter, and wait for so long. */
  function OneRefresh(start: int, first: real, x: real, wait: int): seq<Moment> {
    var fires := start + NextRefreshDelay(None, start, first);
    [Wait(fires), Fire("t", x), Wait(fires + wait)]
  }

  lemma OneRefreshEvolves(target: ServerTarget, start: int, first: real, ttl: int, x: real, wait: int)
    requires var fires := start + NextRefreshDelay(None, start, first);
             && Draw(x, Base(Some(fires + ttl), fires))
             && 0 <= wait <= NextRefreshDelay(Some(fires + ttl), fires, x)
    ensures var l := Evolve(target, start, first, ttl, OneRefresh(start, first, x, wait));
            var fires := start + NextRefreshDelay(None, start, first);
            && l.Some? && l.value.src.calls != [] && l.value.src.expiry == Some(fires + ttl)
            && l.value.now == fires + wait && l.value.src.terminalErr.None? && l.value.src.inflight.None?
  {
    var ms := OneRefresh(start, first, x, wait);
    assert ms[..2][..1][..0] == [];
    var fires := start + NextRefreshDelay(None, start, first);
    var src := Tick(NewSource(target), Minted("t", Some(fires + ttl)));
    assert Evolve(target, start, first, ttl, ms[..2][..1]) == Some(Loop(fires, fires, NewSource(target)));
    assert Evolve(target, start, first, ttl, ms[..2])
        == Some(Loop(fires, fires + NextRefreshDelay(Some(fires + ttl), fires, x), src));
  }

  /** Below the threshold some jitter lets the token get stale before the next tick. */
  lemma ShortTokenBlocks(target: ServerTarget, start: int, first: real, ttl: int)
    requires Draw(first, DEFAULT_REFRESH_DELAY) && ttl < FRESH_TTL
    ensures exists ms :: !NeverBlocks(target, start, first, ttl, ms)
  {
    var fires := start + NextRefreshDelay(None, start, first);
    var x, wait := 0.0, 0;
    if ttl > TOKEN_REFRESH_WINDOW {
      FreshExactly(ttl, fires);
      x :| Draw(x, Base(Some(fires + ttl), fires)) &&
          Stale(Some(fires + ttl), fires + NextRefreshDelay(Some(fires + ttl), fires, x));
      wait := NextRefreshDelay(Some(fires + ttl), fires, x);
    }
    OneRefreshEvolves(target, start, first, ttl, x, wait);
    assert !NeverBlocks(target, start, first, ttl, OneRefresh(start, first, x, wait));
  }

  /** With mints that succeed at once, Token calls never block after the first mint, in any
      run, exactly when the lifetime of the tokens is at least FRESH_TTL. */
  lemma NeverBlocksExactly(target: ServerTarget, start: int, first: real, ttl: int)
    requires Draw(first, DEFAULT_REFRESH_DELAY)
    ensures (forall ms :: NeverBlocks(target, start, first, ttl, ms)) <==> ttl >= FRESH_TTL
  {
    if ttl >= FRESH_TTL {
      forall ms ensures NeverBlocks(target, start, first, ttl, ms) {
        if Evolve(target, start, first, ttl, ms).Some? { TokenNeverBlocks(target, start, first, ttl, ms); }
      }
    } else {
      ShortTokenBlocks(target, start, first, ttl);
    }
  }
}
