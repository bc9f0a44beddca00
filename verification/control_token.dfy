/** Control tokens on the desktop's behalf (`cmd/shed-host-agent/controltoken.go`): one
    credential source per server name, reused while the server's target is unchanged. */
module ControlTokens {
  import opened Basics
  import opened Targets
  import opened CredentialSources

  datatype ResolveError = Unreadable | Unknown | NoEndpoint | NotSecure

  /** The first target of that name, if it can be minted for; `discovered` is what reading the
      server configuration gave, None when that failed. */
  method Resolve(discovered: Option<seq<ServerTarget>>, name: string) returns (r: Result<ServerTarget, ResolveError>)
    ensures r == Err(Unreadable) <==> discovered.None?
    ensures r == Err(Unknown) <==> discovered.Some? && !Named(discovered.value, name)
    ensures discovered.Some? && Named(discovered.value, name) ==>
              exists i :: 0 <= i < |discovered.value| && discovered.value[i].name == name
                          && !Named(discovered.value[..i], name)
                          && var t := discovered.value[i];
                             if t.sshHost == "" || t.sshPort == 0 then r == Err(NoEndpoint)
                             else if !IsSecure(t) then r == Err(NotSecure)
                             else r == Ok(t)
  {
    if discovered.None? { return Err(Unreadable); }
    var targets := discovered.value;
    for k := 0 to |targets|
      invariant !Named(targets[..k], name)
    {
      var t := targets[k];
      assert targets[..k + 1] == targets[..k] + [t];
      NamedAppend(targets[..k], t, name);
      if t.name == name {
        if t.sshHost == "" || t.sshPort == 0 { return Err(NoEndpoint); }
        if !IsSecure(t) { return Err(NotSecure); }
        return Ok(t);
      }
    }
    assert targets[..|targets|] == targets;
    return Err(Unknown);
  }

  class Provider {
    var sources: map<string, CredentialSource>

    constructor ()
      ensures sources == map[]
    {
      sources := map[];
    }

    /** The cached source while its target is unchanged, a new one otherwise; no other name
        is touched. */
    method SourceFor(name: string, target: ServerTarget) returns (src: CredentialSource)
      modifies this`sources
      ensures src.target == target
      ensures if name in old(sources) && old(sources)[name].target == target
              then src == old(sources)[name] && sources == old(sources)
              else fresh(src) && src.Valid() && src.Abs() == NewSource(target) && sources == old(sources)[name := src]
    {
      if name in sources && sources[name].target == target {
        return sources[name];
      }
      src := new CredentialSource(target);
      sources := sources[name := src];
    }
  }

  // ---------------------------------------------------------------- runs

  /** Everything that has happened to one source since it was created for a name. */
  datatype Slot = Slot(name: string, target: ServerTarget, events: seq<Event>)

  /** One Token request: what it resolved, the source its lookup returned, and the position of
      its forced call in that source's events, once made. */
  datatype Request = Request(name: string, target: ServerTarget, slot: nat, calledAt: Option<nat>)

  /** `current` maps a name to its source; replaced sources live on until their callers leave. */
  datatype State = State(current: map<string, nat>, slots: seq<Slot>, requests: seq<Request>)

  /** The two critical sections of a Token request, and whatever else happens to a source. */
  datatype Step =
    | Lookup(name: string, target: ServerTarget)
    | Call(request: nat, now: int)
    | On(slot: nat, event: Event)

  function LookupSource(s: State, name: string, target: ServerTarget): (State, nat) {
    if name in s.current && s.current[name] < |s.slots| && s.slots[s.current[name]].target == target
    then (s, s.current[name])
    else (s.(current := s.current[name := |s.slots|], slots := s.slots + [Slot(name, target, [])]), |s.slots|)
  }

  /** A request calls once; a mint reports only while it runs. */
  predicate Possible(s: State, step: Step) {
    match step
    case Lookup(_, _) => true
    case Call(r, _) => r < |s.requests| && s.requests[r].calledAt.None? && s.requests[r].slot < |s.slots|
    case On(k, event) =>
      && k < |s.slots|
      && (event.MintDone? ==>
            var run := Run(s.slots[k].target, s.slots[k].events);
            run.Some? && event.call in run.value.running && event.call < |run.value.src.calls|)
  }

  function Happens(s: State, k: nat, event: Event): State
    requires k < |s.slots|
  {
    s.(slots := s.slots[k := s.slots[k].(events := s.slots[k].events + [event])])
  }

  function Take(s: State, step: Step): State
    requires Possible(s, step)
  {
    match step
    case Lookup(name, target) =>
      var (t, k) := LookupSource(s, name, target);
      t.(requests := t.requests + [Request(name, target, k, None)])
    case Call(r, now) =>
      var k := s.requests[r].slot;
      Happens(s, k, TokenCall(true, now)).(requests :=
        s.requests[r := s.requests[r].(calledAt := Some(|s.slots[k].events|))])
    case On(k, event) => Happens(s, k, event)
  }

  function After(steps: seq<Step>): Option<State> {
    if steps == [] then Some(State(map[], [], []))
    else
      var before := After(steps[..|steps| - 1]);
      var step := steps[|steps| - 1];
      if before.Some? && Possible(before.value, step) then Some(Take(before.value, step)) else None
  }

  predicate SlotRuns(slot: Slot) { Run(slot.target, slot.events).Some? }

  /** The request holds a source of its own name and target, and made its forced call there. */
  predicate RequestOk(s: State, r: Request) {
    && r.slot < |s.slots| && s.slots[r.slot].name == r.name && s.slots[r.slot].target == r.target
    && (r.calledAt.Some? ==>
          && r.calledAt.value < |s.slots[r.slot].events|
          && s.slots[r.slot].events[r.calledAt.value].TokenCall? && s.slots[r.slot].events[r.calledAt.value].force)
  }

  ghost predicate Inv(s: State) {
    && (forall name <- s.current :: s.current[name] < |s.slots| && s.slots[s.current[name]].name == name)
    && (forall k :: 0 <= k < |s.slots| ==> SlotRuns(s.slots[k]))
    && (forall i :: 0 <= i < |s.requests| ==> RequestOk(s, s.requests[i]))
  }

  lemma RunContinues(target: ServerTarget, es: seq<Event>, e: Event)
    requires Run(target, es).Some? && Enabled(Run(target, es).value, e)
    ensures Run(target, es + [e]).Some?
  {
    assert (es + [e])[..|es|] == es;
  }

  lemma HappensKeepsInv(s: State, k: nat, event: Event)
    requires Inv(s) && k < |s.slots|
    requires SlotRuns(s.slots[k]) && Enabled(Run(s.slots[k].target, s.slots[k].events).value, event)
    ensures Inv(Happens(s, k, event))
  {
    RunContinues(s.slots[k].target, s.slots[k].events, event);
    var t := Happens(s, k, event);
    forall i | 0 <= i < |t.requests| ensures RequestOk(t, t.requests[i]) {
      assert RequestOk(s, s.requests[i]);
    }
  }

  lemma LookupKeepsInv(s: State, name: string, target: ServerTarget)
    requires Inv(s)
    ensures Inv(Take(s, Lookup(name, target)))
  {
    var t := Take(s, Lookup(name, target));
    forall i | 0 <= i < |t.requests| ensures RequestOk(t, t.requests[i]) {
      if i < |s.requests| { assert RequestOk(s, s.requests[i]); }
    }
  }

  lemma StepKeepsInv(s: State, step: Step)
    requires Inv(s) && Possible(s, step)
    ensures Inv(Take(s, step))
  {
    match step
    case Lookup(name, target) => LookupKeepsInv(s, name, target);
    case On(k, event) => HappensKeepsInv(s, k, event);
    case Call(r, now) =>
      var k := s.requests[r].slot;
      HappensKeepsInv(s, k, TokenCall(true, now));
      var u, t := Happens(s, k, TokenCall(true, now)), Take(s, step);
      forall i | 0 <= i < |t.requests| ensures RequestOk(t, t.requests[i]) {
        assert RequestOk(u, u.requests[i]);
      }
  }

  /** Whatever requests come in and however they interleave, each source goes through a run of
      its own, and a name's source, and every request's, belongs to that name and target. */
  lemma {:induction false} EverySourceRuns(steps: seq<Step>)
    requires After(steps).Some?
    ensures Inv(After(steps).value)
  {
    if steps != [] {
      EverySourceRuns(steps[..|steps| - 1]);
      StepKeepsInv(After(steps[..|steps| - 1]).value, steps[|steps| - 1]);
    }
  }

  /** The token came from a mint of this source that committed after position `at`. */
  ghost predicate MintedAfter(slot: Slot, at: nat, token: string, expiry: Option<int>) {
    exists j :: at < j < |slot.events| && slot.events[j].MintDone? && slot.events[j].result == Minted(token, expiry)
  }

  /** What a request that made its call is entitled to: it is never served from the cache, the
      mint it waits for is fresh, a refusal is the latched error of its source, and a token, once
      it has one, was minted for its own target after its call. */
  ghost predicate Served(slot: Slot, at: nat) {
    && SlotRuns(slot)
    && var s := Run(slot.target, slot.events).value;
       exists c <- s.callers ::
         && c.at == at && c.force && ForcedIsFresh(slot.target, slot.events, s, c)
         && (c.entered.Refused? ==> s.src.terminalErr == Some(c.entered.err))
         && (Returned(s, c).Some? && Returned(s, c).value.err.None? ==>
               MintedAfter(slot, at, Returned(s, c).value.token, Returned(s, c).value.expiry))
  }

  /** Per server name, for every run: each request's source has the request's name and exactly
      the target it resolved, and once the request has called it is served freshly. */
  lemma RequestsAreServedFresh(steps: seq<Step>, i: nat)
    requires After(steps).Some? && i < |After(steps).value.requests|
    ensures var s := After(steps).value;
            var r := s.requests[i];
            && r.slot < |s.slots| && s.slots[r.slot].name == r.name && s.slots[r.slot].target == r.target
            && (r.calledAt.Some? ==> Served(s.slots[r.slot], r.calledAt.value))
  {
    EverySourceRuns(steps);
    var s := After(steps).value;
    var r := s.requests[i];
    assert RequestOk(s, r) && SlotRuns(s.slots[r.slot]);
    if r.calledAt.Some? { ForcedCallIsServed(s.slots[r.slot], r.calledAt.value); }
  }

  lemma ForcedCallIsServed(slot: Slot, at: nat)
    requires SlotRuns(slot) && at < |slot.events| && slot.events[at].TokenCall? && slot.events[at].force
    ensures Served(slot, at)
  {
    var s := Run(slot.target, slot.events).value;
    CallIsRecorded(slot.target, slot.events, at);
    ForcedTokensAreFresh(slot.target, slot.events);
    RunKeepsInv(slot.target, slot.events);
    var c :| c in s.callers && c.at == at && c.force;
    if Returned(s, c).Some? && Returned(s, c).value.err.None? {
      TokenIsMintedAfter(slot, c);
    }
  }

  lemma TokenIsMintedAfter(slot: Slot, c: Caller)
    requires SlotRuns(slot)
    requires var s := Run(slot.target, slot.events).value;
             && c in s.callers && c.force && ForcedIsFresh(slot.target, slot.events, s, c)
             && Returned(s, c).Some? && Returned(s, c).value.err.None?
    ensures var o := Returned(Run(slot.target, slot.events).value, c).value;
            MintedAfter(slot, c.at, o.token, o.expiry)
  {
    var s := Run(slot.target, slot.events).value;
    RunKeepsInv(slot.target, slot.events);
    var k := c.entered.call;
    CompletedByItsMint(slot.target, slot.events, k);
    var j := s.committedAt[k];
    assert slot.events[j].result.Minted?;
  }

  ghost predicate Latched(s: State, k: nat, err: Error) {
    && k < |s.slots|
    && Run(s.slots[k].target, s.slots[k].events).Some?
    && Run(s.slots[k].target, s.slots[k].events).value.src.terminalErr == Some(err)
  }

  /** `later` asks for `name` only with the target `t`. */
  predicate SameTarget(later: seq<Step>, name: string, t: ServerTarget) {
    forall step <- later :: step.Lookup? && step.name == name ==> step.target == t
  }

  /** `k` is the latched source of `name`. */
  ghost predicate Holds(s: State, name: string, k: nat, target: ServerTarget, err: Error) {
    name in s.current && s.current[name] == k && Latched(s, k, err) && s.slots[k].target == target
  }

  lemma HappensKeepsLatch(s: State, j: nat, event: Event, name: string, k: nat, target: ServerTarget, err: Error)
    requires j < |s.slots| && SlotRuns(s.slots[j]) && SlotRuns(Happens(s, j, event).slots[j])
    requires Holds(s, name, k, target, err)
    ensures Holds(Happens(s, j, event), name, k, target, err)
  {
    if j == k { LatchSurvives(s.slots[k].target, s.slots[k].events, event, err); }
  }

  lemma StepKeepsLatch(s: State, step: Step, name: string, k: nat, target: ServerTarget, err: Error)
    requires Inv(s) && Possible(s, step) && Holds(s, name, k, target, err)
    requires step.Lookup? && step.name == name ==> step.target == target
    ensures Holds(Take(s, step), name, k, target, err)
  {
    StepKeepsInv(s, step);
    match step
    case Lookup(_, _) =>
    case On(j, event) => HappensKeepsLatch(s, j, event, name, k, target, err);
    case Call(r, now) => HappensKeepsLatch(s, s.requests[r].slot, TokenCall(true, now), name, k, target, err);
  }

  lemma {:induction false} LatchStays(steps: seq<Step>, later: seq<Step>, name: string, target: ServerTarget,
      err: Error)
    requires After(steps).Some? && After(steps + later).Some? && name in After(steps).value.current
    requires Holds(After(steps).value, name, After(steps).value.current[name], target, err)
    requires SameTarget(later, name, target)
    ensures Holds(After(steps + later).value, name, After(steps).value.current[name], target, err)
  {
    if later == [] {
      assert steps + later == steps;
    } else {
      var front, step := later[..|later| - 1], later[|later| - 1];
      assert (steps + later)[..|steps + later| - 1] == steps + front;
      assert step in later;
      LatchStays(steps, front, name, target, err);
      EverySourceRuns(steps + front);
      StepKeepsLatch(After(steps + front).value, step, name, After(steps).value.current[name], target, err);
    }
  }

  /** A mismatch stays latched across calls: as long as every later lookup of the name sees an
      unchanged target, it finds the same source, still latched, so a forced call through it is
      refused with the same error and mints nothing. */
  lemma {:induction false} LatchPersists(steps: seq<Step>, later: seq<Step>, name: string, err: Error)
    requires After(steps).Some? && After(steps + later).Some?
    requires name in After(steps).value.current && Latched(After(steps).value, After(steps).value.current[name], err)
    requires SameTarget(later, name, After(steps).value.slots[After(steps).value.current[name]].target)
    ensures
      var s, t := After(steps).value, After(steps + later).value;
      var k := s.current[name];
      && name in t.current && t.current[name] == k
      && Latched(t, k, err) && t.slots[k].target == s.slots[k].target
      && LookupSource(t, name, s.slots[k].target) == (t, k)
      && forall force, now :: EnterToken(Run(t.slots[k].target, t.slots[k].events).value.src, force, now)
                           == (Run(t.slots[k].target, t.slots[k].events).value.src, Refused(err))
  {
    LatchStays(steps, later, name, After(steps).value.slots[After(steps).value.current[name]].target, err);
  }

  lemma LatchSurvives(target: ServerTarget, es: seq<Event>, e: Event, err: Error)
    requires Run(target, es + [e]).Some? && Run(target, es).Some? && Run(target, es).value.src.terminalErr == Some(err)
    ensures Run(target, es + [e]).value.src.terminalErr == Some(err)
  {
    assert (es + [e])[..|es|] == es;
    OutcomesAreFinal(target, es + [e], |es|);
  }

  /** A run can always go on with a lookup, with the call of a request that has not called yet,
      and on any source with whatever that source itself can go on with. */
  lemma {:induction false} RequestsGoOn(steps: seq<Step>, step: Step)
    requires After(steps).Some?
    ensures var s := After(steps).value;
            After(steps + [step]).Some? <==>
              match step
              case Lookup(_, _) => true
              case Call(r, _) => r < |s.requests| && s.requests[r].calledAt == None
              case On(k, event) =>
                k < |s.slots| && Run(s.slots[k].target, s.slots[k].events + [event]).Some?
  {
    assert (steps + [step])[..|steps|] == steps;
    EverySourceRuns(steps);
    var s := After(steps).value;
    match step
    case Lookup(_, _) =>
    case Call(r, _) => if r < |s.requests| { assert RequestOk(s, s.requests[r]); }
    case On(k, event) =>
      if k < |s.slots| {
        var slot := s.slots[k];
        assert SlotRuns(slot);
        CredentialSources.RunGoesOn(slot.target, slot.events, event);
        RunKeepsInv(slot.target, slot.events);
      }
  }

  /** What a lookup does: it is recorded as a request; a name looked up again with the same target
      gets the same source, with another target a new one, and no other name is touched. */
  lemma LookupReuses(s: State, name: string, target: ServerTarget)
    requires Inv(s)
    ensures var t := Take(s, Lookup(name, target));
            var reused := name in s.current && s.slots[s.current[name]].target == target;
            var k := if reused then s.current[name] else |s.slots|;
            && t.requests == s.requests + [Request(name, target, k, None)]
            && t.slots == (if reused then s.slots else s.slots + [Slot(name, target, [])])
            && name in t.current && t.current[name] == k
            && (forall other <- s.current :: other != name ==>
                  other in t.current && t.current[other] == s.current[other])
            && (forall other <- t.current :: other == name || other in s.current)
  {
  }

  /** What the call of a request does: a forced Token call reaches its source, at the position
      recorded, and nothing else happens. */
  lemma CallReachesSource(s: State, r: nat, now: int)
    requires Inv(s) && Possible(s, Call(r, now))
    ensures var t := Take(s, Call(r, now));
            var k := s.requests[r].slot;
            && t.current == s.current && |t.slots| == |s.slots| && |t.requests| == |s.requests|
            && t.slots[k] == Slot(s.slots[k].name, s.slots[k].target, s.slots[k].events + [TokenCall(true, now)])
            && t.requests[r].calledAt == Some(|s.slots[k].events|) && t.requests[r].slot == k
            && (forall j :: 0 <= j < |s.slots| && j != k ==> t.slots[j] == s.slots[j])
            && (forall i :: 0 <= i < |s.requests| && i != r ==> t.requests[i] == s.requests[i])
  {
  }
}
