/** The single-flight token cache of `cmd/shed-host-agent/credmint.go`.

    `Source` is the state guarded by the mutex, and each function on it is one critical
    section. `CredentialSource` is the object with those fields; its methods are proved to
    compute these functions. The mint itself runs off the lock: it is an arbitrary result
    delivered by a later step, so a run interleaves any number of callers with it. */
module CredentialSources {
  import opened Basics
  import opened Targets

  const HOUR := 3_600_000_000_000
  const TOKEN_REFRESH_WINDOW := 2 * HOUR

  /** A host-key pin mismatch is terminal; anything else is retried. */
  datatype Error = Terminal(server: string, cause: string) | MintError(message: string)

  /** What the minter may answer. An absent expiry is a token that does not expire. */
  datatype MintResult =
    | Minted(token: string, expiry: Option<int>)
    | HostKeyMismatch(cause: string)
    | MintFailed(message: string)

  datatype Outcome = Outcome(token: string, expiry: Option<int>, err: Option<Error>)

  /** `calls` holds every mint ever started, in order; None while it is running. */
  datatype Source = Source(
    target: ServerTarget, token: string, expiry: Option<int>, terminalErr: Option<Error>,
    inflight: Option<nat>, calls: seq<Option<Outcome>>)

  /** How a caller leaves the locked section. */
  datatype Entered = Refused(err: Error) | Cached(token: string, expiry: Option<int>) | Joined(call: nat)

  function NewSource(target: ServerTarget): Source { Source(target, "", None, None, None, []) }

  predicate Stale(expiry: Option<int>, now: int) {
    expiry.Some? && now >= expiry.value - TOKEN_REFRESH_WINDOW
  }

  /** Joins the mint in flight, or starts one. */
  function Obtain(s: Source): (Source, nat) {
    if s.inflight.Some? then (s, s.inflight.value)
    else (s.(inflight := Some(|s.calls|), calls := s.calls + [None]), |s.calls|)
  }

  function EnterToken(s: Source, force: bool, now: int): (Source, Entered) {
    if s.terminalErr.Some? then (s, Refused(s.terminalErr.value))
    else if !force && s.token != "" && !Stale(s.expiry, now) then (s, Cached(s.token, s.expiry))
    else
      var (s', k) := Obtain(if force then s.(token := "") else s);
      (s', Joined(k))
  }

  function EnterRefresh(s: Source): (Source, Option<nat>) {
    if s.terminalErr.Some? then (s, None)
    else var (s', k) := Obtain(s); (s', Some(k))
  }

  function Clear(s: Source): Source { s.(token := "") }

  /** The outcome recorded on a call for a mint result. */
  function OutcomeOf(target: ServerTarget, r: MintResult): Outcome {
    match r
    case Minted(token, expiry) => Outcome(token, expiry, None)
    case HostKeyMismatch(cause) => Outcome("", None, Some(Terminal(target.name, cause)))
    case MintFailed(message) => Outcome("", None, Some(MintError(message)))
  }

  function Commit(s: Source, k: nat, r: MintResult): Source
    requires k < |s.calls|
  {
    var o := OutcomeOf(s.target, r);
    var s1 := s.(inflight := None, calls := s.calls[k := Some(o)]);
    match r
    case Minted(token, expiry) => s1.(token := token, expiry := expiry)
    case HostKeyMismatch(_) => s1.(terminalErr := o.err)
    case MintFailed(_) => s1
  }

  // ---------------------------------------------------------------- the object

  class InflightMint {
    var done: bool
    var token: string
    var expiry: Option<int>
    var err: Option<Error>

    constructor ()
      ensures !done
    {
      done, token, expiry, err := false, "", None, None;
    }

    function View(): Option<Outcome>
      reads this
    {
      if done then Some(Outcome(token, expiry, err)) else None
    }
  }

  class CredentialSource {
    const target: ServerTarget
    var token: string
    var expiry: Option<int>
    var terminalErr: Option<Error>
    var inflight: InflightMint?
    ghost var started: seq<InflightMint>

    /** Every started mint is a different object, and the running one is exactly `inflight`. */
    ghost predicate Valid()
      reads this, started
    {
      && (forall i, j :: 0 <= i < j < |started| ==> started[i] != started[j])
      && (inflight != null ==> started != [] && inflight == started[|started| - 1])
      && (forall i :: 0 <= i < |started| ==> (!started[i].done <==> inflight == started[i]))
    }

    ghost function Abs(): Source
      reads this, started
    {
      Source(target, token, expiry, terminalErr,
             if inflight != null && started != [] then Some(|started| - 1) else None,
             seq(|started|, i requires 0 <= i < |started| reads this, started => started[i].View()))
    }

    constructor (target: ServerTarget)
      ensures Valid() && Abs() == NewSource(target) && this.target == target && started == []
    {
      this.target := target;
      token, expiry, terminalErr, inflight, started := "", None, None, null, [];
    }

    method ObtainLocked() returns (call: InflightMint)
      requires Valid()
      modifies this`inflight, this`started
      ensures Valid() && call in started
      ensures (Abs(), Obtain(old(Abs())).1) == Obtain(old(Abs()))
      ensures Obtain(old(Abs())).1 < |started| && started[Obtain(old(Abs())).1] == call
      ensures forall m <- old(started) :: m in started && unchanged(m)
      ensures forall m <- started :: m in old(started) || fresh(m)
    {
      if inflight != null {
        call := inflight;
      } else {
        call := new InflightMint();
        inflight := call;
        started := started + [call];
        assert Abs().calls == old(Abs()).calls + [None];
      }
    }

    /** The locked section of obtainTokenWithExpiry: a refusal, the cached pair, or a call to
        wait on. */
    method EnterLocked(force: bool, now: int) returns (call: InflightMint?, out: Outcome)
      requires Valid()
      modifies this`token, this`inflight, this`started
      ensures Valid()
      ensures Abs() == EnterToken(old(Abs()), force, now).0
      ensures match EnterToken(old(Abs()), force, now).1
        case Refused(err) => call == null && out == Outcome("", None, Some(err))
        case Cached(tok, exp) => call == null && out == Outcome(tok, exp, None)
        case Joined(k) => k < |started| && call == started[k]
      ensures forall m <- started :: m in old(started) || fresh(m)
    {
      call, out := null, Outcome("", None, None);
      if terminalErr.Some? {
        out := Outcome("", None, terminalErr);
        return;
      }
      if force {
        token := "";
      } else if token != "" && !Stale(expiry, now) {
        out := Outcome(token, expiry, None);
        return;
      }
      call := ObtainLocked();
    }

    method Invalidate()
      requires Valid()
      modifies this`token
      ensures Valid() && Abs() == Clear(old(Abs()))
    {
      token := "";
    }

    method RefreshLocked() returns (call: InflightMint?)
      requires Valid()
      modifies this`inflight, this`started
      ensures Valid()
      ensures Abs() == EnterRefresh(old(Abs())).0
      ensures match EnterRefresh(old(Abs())).1
        case None => call == null
        case Some(k) => k < |started| && call == started[k]
      ensures forall m <- started :: m in old(started) || fresh(m)
    {
      call := null;
      if terminalErr.Some? { return; }
      call := ObtainLocked();
    }

    /** The second half of doMint: store the result and release the waiters. */
    method MintDone(call: InflightMint, ghost k: nat, r: MintResult)
      requires Valid() && k < |started| && started[k] == call && !call.done
      modifies this`token, this`expiry, this`terminalErr, this`inflight, call
      ensures Valid() && started == old(started)
      ensures Abs() == Commit(old(Abs()), k, r)
    {
      inflight := null;
      match r {
        case Minted(tok, exp) =>
          token, expiry := tok, exp;
          call.token, call.expiry, call.err := tok, exp, None;
        case HostKeyMismatch(cause) =>
          terminalErr := Some(Terminal(target.name, cause));
          call.token, call.expiry, call.err := "", None, terminalErr;
        case MintFailed(message) =>
          call.token, call.expiry, call.err := "", None, Some(MintError(message));
      }
      call.done := true;
      assert Abs().calls == Commit(old(Abs()), k, r).calls;
    }
  }

  // ---------------------------------------------------------------- runs

  /** One atomic step: a caller's locked section, a refresh tick, an invalidation after a
      401, or the completion of a running mint. */
  datatype Event = TokenCall(force: bool, now: int) | Refresh | Invalidation | MintDone(call: nat, result: MintResult)

  /** A Token caller: when it entered (its position in the run) and how it left the lock. */
  datatype Caller = Caller(force: bool, at: nat, now: int, entered: Entered)

  /** `running` are the mint goroutines that have not reported yet. */
  datatype System = System(
    src: Source, running: set<nat>, startedAt: seq<nat>, committedAt: map<nat, nat>, callers: seq<Caller>)

  predicate Enabled(s: System, e: Event) {
    e.MintDone? ==> e.call in s.running && e.call < |s.src.calls|
  }

  /** A new call, if the step started one, gets a goroutine and a start time. */
  function Started(s: System, src: Source, at: nat): System {
    if |src.calls| > |s.src.calls| then
      s.(src := src, running := s.running + {|s.src.calls|}, startedAt := s.startedAt + [at])
    else s.(src := src)
  }

  function Apply(s: System, e: Event, at: nat): System
    requires Enabled(s, e)
  {
    match e
    case TokenCall(force, now) =>
      var (src, entered) := EnterToken(s.src, force, now);
      var s' := Started(s, src, at);
      s'.(callers := s'.callers + [Caller(force, at, now, entered)])
    case Refresh => Started(s, EnterRefresh(s.src).0, at)
    case Invalidation => s.(src := Clear(s.src))
    case MintDone(k, r) =>
      s.(src := Commit(s.src, k, r), running := s.running - {k}, committedAt := s.committedAt[k := at])
  }

  function Run(target: ServerTarget, es: seq<Event>): Option<System> {
    if es == [] then Some(System(NewSource(target), {}, [], map[], []))
    else
      var before := Run(target, es[..|es| - 1]);
      var e := es[|es| - 1];
      if before.Some? && Enabled(before.value, e) then Some(Apply(before.value, e, |es| - 1)) else None
  }

  /** What a caller has been given so far: at once when refused or served from the cache,
      otherwise once its call has completed. */
  function Returned(s: System, c: Caller): Option<Outcome> {
    match c.entered
    case Refused(err) => Some(Outcome("", None, Some(err)))
    case Cached(token, expiry) => Some(Outcome(token, expiry, None))
    case Joined(k) => if k < |s.src.calls| then s.src.calls[k] else None
  }

  // ---------------------------------------------------------------- single flight

  ghost predicate Inv(s: System) {
    var src := s.src;
    && s.running == (if src.inflight.Some? then {src.inflight.value} else {})
    && (src.inflight.Some? ==> src.inflight.value == |src.calls| - 1)
    && |s.startedAt| == |src.calls|
    && (forall k :: 0 <= k < |src.calls| ==> (src.calls[k].None? <==> src.inflight == Some(k)))
    && (forall k :: k in s.committedAt <==> 0 <= k < |src.calls| && src.calls[k].Some?)
    && (forall i :: 0 <= i < |s.callers| && s.callers[i].entered.Joined? ==> s.callers[i].entered.call < |src.calls|)
    // the latch
    && (src.terminalErr.Some? ==>
          && src.inflight.None? && src.calls != []
          && src.terminalErr.value.Terminal? && src.terminalErr.value.server == src.target.name
          && src.calls[|src.calls| - 1] == Some(Outcome("", None, src.terminalErr)))
    && (forall k :: 0 <= k < |src.calls| && src.calls[k].Some? && IsTerminal(src.calls[k].value) ==>
          k == |src.calls| - 1 && src.terminalErr == src.calls[k].value.err)
    && (forall k :: 0 <= k < |src.calls| && src.calls[k].Some? && src.calls[k].value.err.Some? ==>
         src.calls[k].value.token == "")
    && (forall i :: 0 <= i < |s.callers| && s.callers[i].entered.Refused? ==>
         src.terminalErr == Some(s.callers[i].entered.err))
  }

  predicate IsTerminal(o: Outcome) { o.err.Some? && o.err.value.Terminal? }

  lemma ObtainKeepsInv(s: System, src: Source, at: nat)
    requires Inv(s) && s.src.terminalErr.None?
    requires src == s.src || src == s.src.(token := "")
    ensures var t := Started(s, Obtain(src).0, at);
      Inv(t) && Obtain(src).1 < |t.src.calls| && t.callers == s.callers
  {
  }

  lemma CommitKeepsInv(s: System, k: nat, r: MintResult, at: nat)
    requires Inv(s) && Enabled(s, MintDone(k, r))
    ensures Inv(Apply(s, MintDone(k, r), at))
  {
    var t := Apply(s, MintDone(k, r), at);
    assert k == |s.src.calls| - 1;
    assert forall i :: 0 <= i < k ==> t.src.calls[i] == s.src.calls[i];
  }

  lemma TokenCallKeepsInv(s: System, force: bool, now: int, at: nat)
    requires Inv(s)
    ensures Inv(Apply(s, TokenCall(force, now), at))
  {
    if s.src.terminalErr.None? {
      ObtainKeepsInv(s, if force then s.src.(token := "") else s.src, at);
    }
  }

  lemma {:induction false} StepKeepsInv(s: System, e: Event, at: nat)
    requires Inv(s) && Enabled(s, e)
    ensures Inv(Apply(s, e, at))
    ensures Apply(s, e, at).src.target == s.src.target
  {
    match e
    case TokenCall(force, now) => TokenCallKeepsInv(s, force, now, at);
    case Refresh => if s.src.terminalErr.None? { ObtainKeepsInv(s, s.src, at); }
    case Invalidation =>
    case MintDone(k, r) => CommitKeepsInv(s, k, r, at);
  }

  lemma {:induction false} RunKeepsInv(target: ServerTarget, es: seq<Event>)
    requires Run(target, es).Some?
    ensures Inv(Run(target, es).value)
    ensures Run(target, es).value.src.target == target
  {
    if es != [] {
      RunKeepsInv(target, es[..|es| - 1]);
      StepKeepsInv(Run(target, es[..|es| - 1]).value, es[|es| - 1], |es| - 1);
    }
  }

  lemma WaitersShareInflight(s: System, c: Caller)
    requires Inv(s) && c in s.callers && Returned(s, c).None?
    ensures c.entered.Joined? && s.src.inflight == Some(c.entered.call)
  {
  }

  lemma CompletionReleases(s: System, k: nat, r: MintResult, at: nat, c: Caller)
    requires Inv(s) && Enabled(s, MintDone(k, r)) && c in Apply(s, MintDone(k, r), at).callers
    ensures Returned(Apply(s, MintDone(k, r), at), c).Some?
  {
    CommitKeepsInv(s, k, r, at);
    var t := Apply(s, MintDone(k, r), at);
    if Returned(t, c).None? { WaitersShareInflight(t, c); }
  }

  /** In every interleaving at most one mint is running and it is exactly `inflight`; every
      waiting caller waits on that one; a completion therefore releases all waiters at once,
      with one and the same outcome for those that joined it. */
  lemma {:induction false} SingleFlight(target: ServerTarget, es: seq<Event>)
    requires Run(target, es).Some?
    ensures var s := Run(target, es).value;
      && |s.running| <= 1
      && (forall k <- s.running :: s.src.inflight == Some(k))
      && (forall c <- s.callers :: Returned(s, c).None? ==> c.entered.Joined? && s.src.inflight == Some(c.entered.call))
      && (forall c <- s.callers, d <- s.callers :: c.entered.Joined? && c.entered == d.entered ==>
           Returned(s, c) == Returned(s, d))
    ensures es != [] && es[|es| - 1].MintDone? ==>
              forall c <- Run(target, es).value.callers :: Returned(Run(target, es).value, c).Some?
  {
    RunKeepsInv(target, es);
    var s := Run(target, es).value;
    forall c | c in s.callers && Returned(s, c).None?
      ensures c.entered.Joined? && s.src.inflight == Some(c.entered.call)
    {
      WaitersShareInflight(s, c);
    }
    if es != [] && es[|es| - 1].MintDone? {
      var front, e := es[..|es| - 1], es[|es| - 1];
      RunKeepsInv(target, front);
      forall c | c in s.callers ensures Returned(s, c).Some? {
        CompletionReleases(Run(target, front).value, e.call, e.result, |front|, c);
      }
    }
  }

  lemma RunPrefix(target: ServerTarget, es: seq<Event>, i: nat)
    requires Run(target, es).Some? && i <= |es|
    ensures Run(target, es[..i]).Some?
    decreases |es| - i
  {
    if i < |es| {
      RunPrefix(target, es, i + 1);
      assert es[..i + 1][..i] == es[..i];
    } else {
      assert es[..i] == es;
    }
  }

  /** A step keeps every outcome already given: what a call was completed with never changes. */
  lemma StepKeepsOutcomes(s: System, e: Event, at: nat)
    requires Inv(s) && Enabled(s, e)
    ensures var t := Apply(s, e, at);
      && s.callers <= t.callers
      && |s.src.calls| <= |t.src.calls|
      && (forall k :: 0 <= k < |s.src.calls| && s.src.calls[k].Some? ==> t.src.calls[k] == s.src.calls[k])
      && (s.src.terminalErr.Some? ==> t.src.terminalErr == s.src.terminalErr && t.src.calls == s.src.calls)
      && s.startedAt <= t.startedAt
  {
  }

  /** Single assignment and the latch over whole runs: an outcome, once given, is final; and
      once latched, no mint is ever started again. */
  lemma {:induction false} OutcomesAreFinal(target: ServerTarget, es: seq<Event>, i: nat)
    requires Run(target, es).Some? && i <= |es|
    ensures Run(target, es[..i]).Some?
    ensures var s, t := Run(target, es[..i]).value, Run(target, es).value;
      && s.callers <= t.callers
      && |s.src.calls| <= |t.src.calls|
      && (forall k :: 0 <= k < |s.src.calls| && s.src.calls[k].Some? ==> t.src.calls[k] == s.src.calls[k])
      && (s.src.terminalErr.Some? ==> t.src.terminalErr == s.src.terminalErr && t.src.calls == s.src.calls)
      && s.startedAt <= t.startedAt
    decreases |es| - i
  {
    RunPrefix(target, es, i);
    if i < |es| {
      OutcomesAreFinal(target, es, i + 1);
      RunPrefix(target, es, i + 1);
      assert es[..i + 1][..i] == es[..i];
      RunKeepsInv(target, es[..i]);
      StepKeepsOutcomes(Run(target, es[..i]).value, es[i], i);
    } else {
      assert es[..i] == es;
    }
  }

  /** Fail closed. After a completion reports a host-key mismatch at position `i`, that mint is
      the last one ever started, and every caller that enters later gets that terminal error
      and no token. */
  lemma MismatchIsLast(target: ServerTarget, es: seq<Event>, i: nat, k: nat, cause: string)
    requires Run(target, es).Some? && i < |es| && es[i] == MintDone(k, HostKeyMismatch(cause))
    ensures var s := Run(target, es).value;
      && s.src.terminalErr == Some(Terminal(target.name, cause)) && s.src.inflight.None?
      && |s.src.calls| == k + 1
      && (forall c <- s.callers :: c.at > i ==>
           Returned(s, c) == Some(Outcome("", None, Some(Terminal(target.name, cause)))))
  {
    var latched := es[..i + 1];
    RunPrefix(target, es, i + 1);
    RunPrefix(target, es, i);
    assert latched[..i] == es[..i];
    RunKeepsInv(target, es[..i]);
    RunKeepsInv(target, latched);
    RunKeepsInv(target, es);
    OutcomesAreFinal(target, es, i + 1);
    LatchedCallers(target, es, i + 1);
  }

  lemma {:induction false} LatchedCallers(target: ServerTarget, es: seq<Event>, i: nat)
    requires Run(target, es).Some? && i <= |es|
    requires Run(target, es[..i]).Some? && Run(target, es[..i]).value.src.terminalErr.Some?
    ensures var t, err := Run(target, es).value, Run(target, es[..i]).value.src.terminalErr.value;
      && t.src.terminalErr == Some(err)
      && (forall c <- t.callers :: c.at >= i ==> c.entered == Refused(err))
  {
    if |es| > i {
      var front := es[..|es| - 1];
      assert front[..i] == es[..i];
      LatchedCallers(target, front, i);
      RunKeepsInv(target, front);
    } else {
      assert es[..i] == es;
      CallersAreEarlier(target, es);
    }
  }

  lemma {:induction false} CallersAreEarlier(target: ServerTarget, es: seq<Event>)
    requires Run(target, es).Some?
    ensures forall c <- Run(target, es).value.callers :: c.at < |es|
  {
    if es != [] { CallersAreEarlier(target, es[..|es| - 1]); }
  }

  /** Every Token call in a run has its caller on record. */
  lemma {:induction false} CallIsRecorded(target: ServerTarget, es: seq<Event>, i: nat)
    requires Run(target, es).Some? && i < |es| && es[i].TokenCall?
    ensures exists c <- Run(target, es).value.callers :: c.at == i && c.force == es[i].force && c.now == es[i].now
  {
    var front, e := es[..|es| - 1], es[|es| - 1];
    var s, t := Run(target, front).value, Run(target, es).value;
    if i < |front| {
      CallIsRecorded(target, front, i);
      var c :| c in s.callers && c.at == i && c.force == es[i].force && c.now == es[i].now;
      CallersStay(s, e, |front|, c);
    } else {
      var c := t.callers[|t.callers| - 1];
      assert c == Caller(e.force, i, e.now, EnterToken(s.src, e.force, e.now).1);
    }
  }

  lemma CallersStay(s: System, e: Event, at: nat, c: Caller)
    requires Enabled(s, e) && c in s.callers
    ensures c in Apply(s, e, at).callers
  {
  }

  /** What a completed call holds is the outcome of the mint that completed it, at the
      position recorded for it. */
  lemma {:induction false} CompletedByItsMint(target: ServerTarget, es: seq<Event>, k: nat)
    requires Run(target, es).Some? && k in Run(target, es).value.committedAt
    ensures var s, at := Run(target, es).value, Run(target, es).value.committedAt[k];
      && at < |es| && es[at].MintDone? && es[at].call == k
      && k < |s.src.calls| && s.src.calls[k] == Some(
           match es[at].result
           case Minted(token, expiry) => Outcome(token, expiry, None)
           case HostKeyMismatch(cause) => Outcome("", None, Some(Terminal(target.name, cause)))
           case MintFailed(message) => Outcome("", None, Some(MintError(message))))
  {
    var front, e := es[..|es| - 1], es[|es| - 1];
    RunKeepsInv(target, front);
    RunKeepsInv(target, es);
    if e != MintDone(k, if e.MintDone? then e.result else MintFailed("")) {
      CompletedByItsMint(target, front, k);
      StepKeepsOutcomes(Run(target, front).value, e, |front|);
    }
  }

  // ---------------------------------------------------------------- freshness

  /** The mint a forced caller waits for commits after the caller's locked section, and it
      also starts there unless one was already in flight. */
  ghost predicate ForcedIsFresh(target: ServerTarget, es: seq<Event>, s: System, c: Caller) {
    && !c.entered.Cached?
    && (c.entered.Joined? ==>
          var k := c.entered.call;
          && k < |s.startedAt|
          && (k in s.committedAt ==> s.committedAt[k] > c.at)
          && c.at <= |es| && Run(target, es[..c.at]).Some?
          && (Run(target, es[..c.at]).value.src.inflight.None? ==> s.startedAt[k] == c.at))
  }

  lemma {:induction false} ForcedTokensAreFresh(target: ServerTarget, es: seq<Event>)
    requires Run(target, es).Some?
    ensures forall c <- Run(target, es).value.callers :: c.force ==> ForcedIsFresh(target, es, Run(target, es).value, c)
  {
    if es != [] {
      var front, e := es[..|es| - 1], es[|es| - 1];
      var s, t := Run(target, front).value, Run(target, es).value;
      ForcedTokensAreFresh(target, front);
      RunKeepsInv(target, front);
      CallersAreEarlier(target, front);
      forall c | c in t.callers && c.force
        ensures ForcedIsFresh(target, es, t, c)
      {
        assert c.at < |es| && es[..c.at] == front[..c.at];
        if c in s.callers {
          assert ForcedIsFresh(target, front, s, c);
        } else {
          assert front[..c.at] == front;
        }
      }
    }
  }

  /** At position `j` the pair was stored by a successful mint, and nothing between `j` and
      `upto` cleared or replaced it. */
  ghost predicate LastStored(es: seq<Event>, j: nat, upto: nat, token: string, expiry: Option<int>) {
    && j < upto <= |es|
    && es[j].MintDone? && es[j].result == Minted(token, expiry)
    && forall i :: j < i < upto ==> !Clears(es[i])
  }

  predicate Clears(e: Event) {
    e.Invalidation? || (e.TokenCall? && e.force) || (e.MintDone? && e.result.Minted?)
  }

  /** A cached token is always the last stored one. (After a latch a forced call no longer
      clears, but then nothing is served any more.) */
  lemma {:induction false} CachedIsLastStored(target: ServerTarget, es: seq<Event>)
    requires Run(target, es).Some?
    ensures var src := Run(target, es).value.src;
      src.token != "" && src.terminalErr.None? ==> exists j :: LastStored(es, j, |es|, src.token, src.expiry)
  {
    if es != [] {
      var front, e := es[..|es| - 1], es[|es| - 1];
      var s, t := Run(target, front).value.src, Run(target, es).value.src;
      CachedIsLastStored(target, front);
      if t.token != "" && t.terminalErr.None? {
        if e.MintDone? && e.result.Minted? {
          assert LastStored(es, |es| - 1, |es|, t.token, t.expiry);
        } else {
          var j :| LastStored(front, j, |front|, s.token, s.expiry);
          assert !Clears(e);
          assert LastStored(es, j, |es|, t.token, t.expiry);
        }
      }
    }
  }

  lemma NewCaller(s: System, e: Event, at: nat, c: Caller)
    requires Enabled(s, e) && c in Apply(s, e, at).callers && c !in s.callers
    ensures e == TokenCall(c.force, c.now) && c.at == at && c.entered == EnterToken(s.src, c.force, c.now).1
  {
  }

  lemma CachedEntry(src: Source, force: bool, now: int)
    requires EnterToken(src, force, now).1.Cached?
    ensures !force && src.terminalErr.None? && src.token != "" && !Stale(src.expiry, now)
    ensures EnterToken(src, force, now).1 == Cached(src.token, src.expiry)
  {
  }

  /** An unforced caller served from the cache gets exactly the pair of the last successful
      mint, not cleared since, and with more than the refresh window left (or no expiry). */
  lemma {:induction false} CachedReturnIsExact(target: ServerTarget, es: seq<Event>, c: Caller)
    requires Run(target, es).Some? && c in Run(target, es).value.callers && c.entered.Cached?
    ensures !c.force && c.entered.token != "" && c.at < |es|
    ensures exists j :: LastStored(es, j, c.at, c.entered.token, c.entered.expiry)
    ensures c.entered.expiry.Some? ==> c.now < c.entered.expiry.value - TOKEN_REFRESH_WINDOW
  {
    var front, e := es[..|es| - 1], es[|es| - 1];
    var s := Run(target, front).value;
    if c in s.callers {
      CachedReturnIsExact(target, front, c);
      LastStoredExtends(front, es, c.at, c.entered.token, c.entered.expiry);
    } else {
      NewCaller(s, e, |front|, c);
      CachedEntry(s.src, c.force, c.now);
      CachedIsLastStored(target, front);
      LastStoredExtends(front, es, c.at, c.entered.token, c.entered.expiry);
    }
  }

  lemma LastStoredExtends(front: seq<Event>, es: seq<Event>, upto: nat, token: string, expiry: Option<int>)
    requires front <= es && exists j :: LastStored(front, j, upto, token, expiry)
    ensures exists j :: LastStored(es, j, upto, token, expiry)
  {
    var j :| LastStored(front, j, upto, token, expiry);
    assert LastStored(es, j, upto, token, expiry);
  }

  // ---------------------------------------------------------------- one locked section

  /** What a Token caller leaves the lock with, in every state: the latched error; the cached
      pair exactly when unforced, unlatched, and with no expiry or more than two hours before
      it; otherwise the one mint in flight, started now if there was none. */
  lemma EnterExactly(s: Source, force: bool, now: int)
    ensures var (t, entered) := EnterToken(s, force, now);
      && (s.terminalErr.Some? ==> entered == Refused(s.terminalErr.value) && t == s)
      && (entered.Cached? <==>
            && !force && s.terminalErr.None? && s.token != ""
            && (s.expiry.Some? ==> now < s.expiry.value - 7_200_000_000_000))
      && (entered.Cached? ==> entered == Cached(s.token, s.expiry) && t == s)
      && (entered.Joined? ==> t.inflight == Some(entered.call))
      && (entered.Joined? ==> if s.inflight.Some? then t.inflight == s.inflight && t.calls == s.calls
                              else t.calls == s.calls + [None] && entered.call == |s.calls|)
      && t.expiry == s.expiry && t.terminalErr == s.terminalErr
      && t.token == (if force && s.terminalErr.None? then "" else s.token)
  {
  }

  /** A refresh never takes the token away: while it mints, whoever was served still is. */
  lemma RefreshKeepsServing(s: Source, now: int)
    ensures var (t, call) := EnterRefresh(s);
      && t.token == s.token && t.expiry == s.expiry && t.terminalErr == s.terminalErr
      && (call.None? <==> s.terminalErr.Some?) && (call.None? ==> t == s)
      && (call.Some? ==> t.inflight == call && (s.inflight.Some? ==> t == s))
      && (EnterToken(s, false, now).1.Cached? ==> EnterToken(t, false, now).1 == EnterToken(s, false, now).1)
  {
  }

  /** A run can always go on with a caller, a refresh or an invalidation, and with the completion
      of exactly the mint in flight. */
  lemma {:induction false} RunGoesOn(target: ServerTarget, es: seq<Event>, e: Event)
    requires Run(target, es).Some?
    ensures Run(target, es + [e]).Some? <==> (e.MintDone? ==> Run(target, es).value.src.inflight == Some(e.call))
  {
    assert (es + [e])[..|es|] == es;
    RunKeepsInv(target, es);
  }

  /** In a run, a refresh takes nothing away: unless the source is latched, a mint is in flight
      after it, the one before or else one new one, and the cached pair is as it was. */
  lemma RefreshStepExactly(s: System, at: nat)
    requires Inv(s)
    ensures var t := Apply(s, Refresh, at);
      && t.src.token == s.src.token && t.src.expiry == s.src.expiry && t.src.terminalErr == s.src.terminalErr
      && t.callers == s.callers
      && (s.src.terminalErr.Some? || s.src.inflight.Some? ==> t == s)
      && (s.src.terminalErr.None? && s.src.inflight.None? ==>
            t.running == {|s.src.calls|} && t.src.inflight == Some(|s.src.calls|) && t.startedAt == s.startedAt + [at])
  {
  }
}
