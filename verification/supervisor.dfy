/** The reconciler of `cmd/shed-host-agent/supervisor.go`: per-server watcher groups kept in
    agreement with a desired set of servers.

    A group stands for its object: `id` numbers the groups in the order they were started.
    `started` records the target of every group ever started, and `cancelled` the ids of those
    whose context was cancelled. */
module Supervisors {
  import opened Targets

  datatype Group = Group(id: nat, target: ServerTarget)

  type Groups = map<string, Group>

  datatype State = State(groups: Groups, started: seq<ServerTarget>, cancelled: set<nat>, closed: bool, wasEmpty: bool)

  const INITIAL := State(map[], [], {}, false, false)

  /** The desired set by name; of two entries with one name the last wins. */
  function Want(desired: seq<ServerTarget>): map<string, ServerTarget> {
    if desired == [] then map[]
    else Want(desired[..|desired| - 1])[desired[|desired| - 1].name := desired[|desired| - 1]]
  }

  /** Group number `id` is the one running under its target's name. */
  predicate Runs(groups: Groups, started: seq<ServerTarget>, id: nat) {
    id < |started| && started[id].name in groups && groups[started[id].name] == Group(id, started[id])
  }

  /** Every group in the map was started, under the name it is kept at. */
  predicate Recorded(groups: Groups, started: seq<ServerTarget>) {
    forall name <- groups ::
      groups[name].id < |started| && started[groups[name].id] == groups[name].target && groups[name].target.name == name
  }

  /** `name` is wanted and its running group already has exactly the wanted target. */
  predicate UpToDate(groups: Groups, want: map<string, ServerTarget>, name: string) {
    name in groups && name in want && want[name] == groups[name].target
  }

  predicate Match(groups: Groups, want: map<string, ServerTarget>) {
    groups.Keys == want.Keys && forall name <- want :: groups[name].target == want[name]
  }

  /** What one Reconcile does: nothing once closed; otherwise the groups match the desired
      set, an up-to-date group stays the same object and every other name gets a new one, each
      new group runs, and exactly the old groups that no longer run are cancelled. */
  ghost predicate Reconciled(s: State, desired: seq<ServerTarget>, t: State) {
    if s.closed then t == s
    else
      var want := Want(desired);
      && !t.closed && t.wasEmpty == (t.groups == map[])
      && Match(t.groups, want) && Recorded(t.groups, t.started)
      && s.started <= t.started
      && (forall name <- want :: if UpToDate(s.groups, want, name) then t.groups[name] == s.groups[name]
                                 else t.groups[name].id >= |s.started|)
      && (forall id: nat :: |s.started| <= id && id < |t.started| ==> Runs(t.groups, t.started, id))
      && (forall id: nat :: id in t.cancelled <==>
            id in s.cancelled || (Runs(s.groups, s.started, id) && !Runs(t.groups, t.started, id)))
  }

  ghost predicate ShutDown(s: State, t: State) {
    && t.groups == map[] && t.closed && t.started == s.started && t.wasEmpty == s.wasEmpty
    && forall id: nat :: id in t.cancelled <==> id in s.cancelled || Runs(s.groups, s.started, id)
  }

  // ---------------------------------------------------------------- the loops

  method BuildWant(desired: seq<ServerTarget>) returns (want: map<string, ServerTarget>)
    ensures want == Want(desired)
  {
    want := map[];
    for i := 0 to |desired|
      invariant want == Want(desired[..i])
    {
      assert desired[..i + 1][..i] == desired[..i];
      want := want[desired[i].name := desired[i]];
    }
    assert desired[..|desired|] == desired;
  }

  /** Of the names outside `todo`, exactly the groups that are not up to date were cancelled. */
  ghost predicate Stopped(was: Groups, started: seq<ServerTarget>, want: map<string, ServerTarget>, todo: set<string>,
      stopped: set<nat>) {
    forall id: nat :: id in stopped <==> StoppedBy(was, started, want, todo, id)
  }

  predicate StoppedBy(was: Groups, started: seq<ServerTarget>, want: map<string, ServerTarget>, todo: set<string>,
      id: nat) {
    Runs(was, started, id) && started[id].name !in todo && !UpToDate(was, want, started[id].name)
  }

  lemma StopStep(was: Groups, started: seq<ServerTarget>, want: map<string, ServerTarget>,
                 todo: set<string>, name: string, stopped: set<nat>)
    requires Recorded(was, started) && name in todo && name in was && Stopped(was, started, want, todo, stopped)
    ensures Stopped(was, started, want, todo - {name},
                    if UpToDate(was, want, name) then stopped else stopped + {was[name].id})
  {
    forall id: nat
      ensures StoppedBy(was, started, want, todo - {name}, id)
              <==> StoppedBy(was, started, want, todo, id) || (id == was[name].id && !UpToDate(was, want, name))
    {
    }
  }

  /** The up-to-date part of `was` outside `todo`. */
  predicate Kept(was: Groups, want: map<string, ServerTarget>, todo: set<string>, groups: Groups) {
    && (forall name <- groups :: name in was && groups[name] == was[name] && UpToDate(was, want, name) && name !in todo)
    && (forall name <- was :: UpToDate(was, want, name) && name !in todo ==> name in groups)
  }

  /** Removes every group that is gone from the desired set or whose target changed; `stopped`
      are the ids it cancels. */
  method StopChanged(was: Groups, ghost started: seq<ServerTarget>, want: map<string, ServerTarget>)
    returns (groups: Groups, stopped: set<nat>)
    requires Recorded(was, started)
    ensures Kept(was, want, {}, groups) && Stopped(was, started, want, {}, stopped)
  {
    groups, stopped := map[], {};
    var todo := was.Keys;
    while todo != {}
      invariant todo <= was.Keys && Kept(was, want, todo, groups) && Stopped(was, started, want, todo, stopped)
      decreases |todo|
    {
      var name :| name in todo;
      StopStep(was, started, want, todo, name, stopped);
      var g := was[name];
      if name !in want || want[name] != g.target {
        stopped := stopped + {g.id};
      } else {
        groups := groups[name := g];
      }
      todo := todo - {name};
    }
  }

  /** `all` extends `was` with new groups, each running, for the wanted names outside `todo`. */
  ghost predicate Extends(was: Groups, started: seq<ServerTarget>, want: map<string, ServerTarget>,
                          todo: set<string>, all: Groups, after: seq<ServerTarget>)
  {
    && Recorded(all, after) && started <= after
    && all.Keys == was.Keys + (want.Keys - todo)
    && (forall name <- all :: if name in was then all[name] == was[name]
                              else name in want && all[name].target == want[name] && all[name].id >= |started|)
    && (forall id: nat :: |started| <= id && id < |after| ==> Runs(all, after, id))
  }

  lemma StartStep(was: Groups, started: seq<ServerTarget>, want: map<string, ServerTarget>,
                  todo: set<string>, name: string, all: Groups, after: seq<ServerTarget>)
    requires Extends(was, started, want, todo, all, after)
    requires todo <= want.Keys && name in todo && want[name].name == name
    ensures if name in all then Extends(was, started, want, todo - {name}, all, after)
            else Extends(was, started, want, todo - {name}, all[name := Group(|after|, want[name])],
                         after + [want[name]])
  {
    assert want.Keys - (todo - {name}) == (want.Keys - todo) + {name};
    if name !in all {
      var all', after' := all[name := Group(|after|, want[name])], after + [want[name]];
      forall id: nat | |started| <= id && id < |after'| ensures Runs(all', after', id) {
        if id < |after| { assert Runs(all, after, id); }
      }
    }
  }

  /** Starts a group for every wanted name that has none. */
  method StartMissing(was: Groups, want: map<string, ServerTarget>, started: seq<ServerTarget>)
    returns (all: Groups, after: seq<ServerTarget>)
    requires Recorded(was, started) && forall name <- want :: want[name].name == name
    ensures Extends(was, started, want, {}, all, after)
  {
    all, after := was, started;
    var todo := want.Keys;
    while todo != {}
      invariant todo <= want.Keys && Extends(was, started, want, todo, all, after)
      decreases |todo|
    {
      var name :| name in todo;
      StartStep(was, started, want, todo, name, all, after);
      if name !in all {
        all, after := all[name := Group(|after|, want[name])], after + [want[name]];
      }
      todo := todo - {name};
    }
  }

  /** What the loops cancelled is exactly what no longer runs. */
  lemma StoppedNoLongerRuns(was: Groups, started: seq<ServerTarget>, want: map<string, ServerTarget>, stopped: set<nat>,
      all: Groups, after: seq<ServerTarget>)
    requires Recorded(was, started) && Recorded(all, after) && started <= after && all.Keys == want.Keys
    requires forall name <- want ::
               if UpToDate(was, want, name) then all[name] == was[name] else all[name].id >= |started|
    requires Stopped(was, started, want, {}, stopped)
    ensures forall id: nat :: id in stopped <==> Runs(was, started, id) && !Runs(all, after, id)
  {
    KeptRunExactly(was, started, want, all, after);
    forall id: nat ensures id in stopped <==> Runs(was, started, id) && !Runs(all, after, id) {
      assert id in stopped <==> StoppedBy(was, started, want, {}, id);
    }
  }

  lemma LoopsMatch(was: Groups, started: seq<ServerTarget>, want: map<string, ServerTarget>, kept: Groups,
      all: Groups, after: seq<ServerTarget>)
    requires Kept(was, want, {}, kept) && Extends(kept, started, want, {}, all, after)
    ensures Match(all, want)
    ensures forall name <- want ::
              if UpToDate(was, want, name) then all[name] == was[name] else all[name].id >= |started|
  {
    assert all.Keys == want.Keys;
  }

  /** The two loops together do what one reconcile promises. */
  lemma LoopsReconcile(s: State, desired: seq<ServerTarget>, kept: Groups, stopped: set<nat>, all: Groups,
      after: seq<ServerTarget>)
    requires Recorded(s.groups, s.started) && !s.closed
    requires Kept(s.groups, Want(desired), {}, kept) && Stopped(s.groups, s.started, Want(desired), {}, stopped)
    requires Extends(kept, s.started, Want(desired), {}, all, after)
    ensures Reconciled(s, desired, State(all, after, s.cancelled + stopped, false, all == map[]))
    ensures forall id: nat :: id in stopped <==> Runs(s.groups, s.started, id) && !Runs(all, after, id)
  {
    LoopsMatch(s.groups, s.started, Want(desired), kept, all, after);
    StoppedNoLongerRuns(s.groups, s.started, Want(desired), stopped, all, after);
  }

  /** Cancels every running group. */
  method CancelAll(all: Groups, ghost started: seq<ServerTarget>) returns (stopped: set<nat>)
    requires Recorded(all, started)
    ensures forall id: nat :: id in stopped <==> Runs(all, started, id)
  {
    stopped := {};
    var todo := all.Keys;
    while todo != {}
      invariant todo <= all.Keys && Stopped(all, started, map[], todo, stopped)
      decreases |todo|
    {
      var name :| name in todo;
      StopStep(all, started, map[], todo, name, stopped);
      stopped := stopped + {all[name].id};
      todo := todo - {name};
    }
    assert forall id: nat :: id in stopped <==> StoppedBy(all, started, map[], {}, id);
  }

  // ---------------------------------------------------------------- the object

  class Supervisor {
    var groups: Groups
    var closed: bool
    var wasEmpty: bool
    var started: seq<ServerTarget>
    var cancelled: set<nat>

    function Abs(): State
      reads this
    {
      State(groups, started, cancelled, closed, wasEmpty)
    }

    constructor ()
      ensures Abs() == INITIAL
    {
      groups, closed, wasEmpty, started, cancelled := map[], false, false, [], {};
    }

    /** Returns whether to warn that the desired set newly became empty, and the groups it waits
        for before it returns: those it cancelled. */
    method Reconcile(desired: seq<ServerTarget>) returns (warnEmpty: bool, drained: set<nat>)
      requires Recorded(groups, started)
      modifies this
      ensures Reconciled(old(Abs()), desired, Abs())
      ensures warnEmpty <==> !old(closed) && groups == map[] && !old(wasEmpty)
      ensures cancelled == old(cancelled) + drained
      ensures forall id: nat :: id in drained <==>
                !old(closed) && Runs(old(groups), old(started), id) && !Runs(groups, started, id)
    {
      if closed { return false, {}; }
      var want := BuildWant(desired);
      WantIsNamed(desired);
      var kept, stopped := StopChanged(groups, started, want);
      var all, after := StartMissing(kept, want, started);
      LoopsReconcile(Abs(), desired, kept, stopped, all, after);
      groups, started, cancelled := all, after, cancelled + stopped;
      var empty := groups == map[];
      warnEmpty := empty && !wasEmpty;
      wasEmpty := empty;
      drained := stopped;
    }

    /** Waits for every group that ran. */
    method Shutdown() returns (drained: set<nat>)
      requires Recorded(groups, started)
      modifies this
      ensures ShutDown(old(Abs()), Abs())
      ensures cancelled == old(cancelled) + drained
      ensures forall id: nat :: id in drained <==> Runs(old(groups), old(started), id)
    {
      closed := true;
      var stopped := CancelAll(groups, started);
      cancelled := cancelled + stopped;
      groups := map[];
      drained := stopped;
    }
  }

  /** Of the old groups, those still running afterwards are exactly the up-to-date ones. */
  lemma KeptRunExactly(was: Groups, started: seq<ServerTarget>, want: map<string, ServerTarget>, all: Groups,
      after: seq<ServerTarget>)
    requires Recorded(was, started) && Recorded(all, after) && started <= after && all.Keys == want.Keys
    requires forall name <- want :: if UpToDate(was, want, name) then all[name] == was[name]
               else all[name].id >= |started|
    ensures forall id: nat :: Runs(was, started, id) ==>
              (Runs(all, after, id) <==> UpToDate(was, want, started[id].name))
  {
  }

  lemma {:induction false} WantIsNamed(desired: seq<ServerTarget>)
    ensures forall name <- Want(desired) :: Want(desired)[name].name == name && Want(desired)[name] in desired
  {
    if desired != [] {
      WantIsNamed(desired[..|desired| - 1]);
      assert desired == desired[..|desired| - 1] + [desired[|desired| - 1]];
    }
  }

  /** Of several desired entries with one name the last is the one wanted. */
  lemma {:induction false} LastWins(desired: seq<ServerTarget>, i: nat)
    requires i < |desired| && forall j :: i < j < |desired| ==> desired[j].name != desired[i].name
    ensures desired[i].name in Want(desired) && Want(desired)[desired[i].name] == desired[i]
  {
    var front := desired[..|desired| - 1];
    if i < |front| {
      assert forall j :: 0 <= j < |front| ==> front[j] == desired[j];
      LastWins(front, i);
    }
  }

  // ---------------------------------------------------------------- runs

  datatype Op = Reconcile(desired: seq<ServerTarget>) | Shutdown

  ghost predicate StepOf(s: State, op: Op, t: State) {
    match op
    case Reconcile(desired) => Reconciled(s, desired, t)
    case Shutdown => ShutDown(s, t)
  }

  /** `states` are the states before, between and after the operations. */
  ghost predicate IsRun(ops: seq<Op>, states: seq<State>) {
    && |states| == |ops| + 1 && states[0] == INITIAL
    && forall i :: 0 <= i < |ops| ==> StepOf(states[i], ops[i], states[i + 1])
  }

  /** Every group ever started is running or cancelled, never both. */
  ghost predicate Inv(s: State) {
    && Recorded(s.groups, s.started)
    && (forall id: nat :: id in s.cancelled <==> id < |s.started| && !Runs(s.groups, s.started, id))
    && (s.closed ==> s.groups == map[])
  }

  lemma StepKeepsInv(s: State, op: Op, t: State)
    requires Inv(s) && StepOf(s, op, t)
    ensures Inv(t)
  {
    if op.Reconcile? && !s.closed {
      forall id: nat ensures id in t.cancelled <==> id < |t.started| && !Runs(t.groups, t.started, id) {
        OldRunnerRanBefore(s, op.desired, t, id);
      }
    }
  }

  /** A group from before that runs now already ran before. */
  lemma OldRunnerRanBefore(s: State, desired: seq<ServerTarget>, t: State, id: nat)
    requires Recorded(s.groups, s.started) && !s.closed && Reconciled(s, desired, t)
    ensures id < |s.started| && Runs(t.groups, t.started, id) ==> Runs(s.groups, s.started, id)
  {
  }

  lemma {:induction false} RunKeepsInv(ops: seq<Op>, states: seq<State>, i: nat)
    requires IsRun(ops, states) && i <= |ops|
    ensures Inv(states[i])
  {
    if i > 0 {
      RunKeepsInv(ops, states, i - 1);
      StepKeepsInv(states[i - 1], ops[i - 1], states[i]);
    }
  }

  /** No leak and no double life: over any sequence of operations, every group ever started is
      either running, under its own name, or cancelled, and never both; while open, the running
      targets are exactly those of the last Reconcile; once closed, nothing runs. */
  lemma NothingLeaks(ops: seq<Op>, states: seq<State>, i: nat, id: nat)
    requires IsRun(ops, states) && i <= |ops|
    ensures id < |states[i].started| <==> (id in states[i].cancelled) != Runs(states[i].groups, states[i].started, id)
    ensures i > 0 && ops[i - 1].Reconcile? && !states[i].closed ==> Match(states[i].groups, Want(ops[i - 1].desired))
    ensures states[i].closed ==> states[i].groups == map[] && (id < |states[i].started| ==> id in states[i].cancelled)
  {
    RunKeepsInv(ops, states, i);
    if i > 0 { assert StepOf(states[i - 1], ops[i - 1], states[i]); }
  }

  /** After Shutdown, further operations start nothing and nothing runs. */
  lemma {:induction false} ClosedForGood(ops: seq<Op>, states: seq<State>, i: nat, j: nat)
    requires IsRun(ops, states) && i < j <= |ops| && ops[i].Shutdown?
    ensures states[j].closed && states[j].groups == map[] && states[j].started == states[i].started
  {
    assert StepOf(states[j - 1], ops[j - 1], states[j]);
    if j > i + 1 { ClosedForGood(ops, states, i, j - 1); }
  }

  /** No churn: in an open reconcile a group object survives exactly when its whole target is
      still wanted, and is cancelled exactly when it does not survive; and a group is started
      exactly for each wanted name without an up-to-date group. */
  lemma SurvivesExactly(s: State, desired: seq<ServerTarget>, t: State, name: string)
    requires Inv(s) && !s.closed && Reconciled(s, desired, t)
    ensures name in s.groups ==>
              && (name in t.groups && t.groups[name] == s.groups[name]
                  <==> name in Want(desired) && Want(desired)[name] == s.groups[name].target)
              && (s.groups[name].id in t.cancelled <==> !(name in t.groups && t.groups[name] == s.groups[name]))
    ensures (exists id: nat :: |s.started| <= id && id < |t.started| && t.started[id].name == name)
            <==> name in Want(desired) && !UpToDate(s.groups, Want(desired), name)
  {
    if name in s.groups { assert Runs(s.groups, s.started, s.groups[name].id); }
    if name in Want(desired) && !UpToDate(s.groups, Want(desired), name) {
      assert t.started[t.groups[name].id].name == name;
    }
    forall id: nat | |s.started| <= id && id < |t.started| && t.started[id].name == name
      ensures name in Want(desired) && !UpToDate(s.groups, Want(desired), name)
    {
      assert Runs(t.groups, t.started, id);
    }
  }

  /** Reconciling again with the same desired set does nothing at all. */
  lemma RepeatIsNoOp(s: State, desired: seq<ServerTarget>, t: State, u: State)
    requires Inv(s) && Reconciled(s, desired, t) && Reconciled(t, desired, u)
    ensures u == t
  {
    if !s.closed {
      StepKeepsInv(s, Reconcile(desired), t);
      SettledStays(t, desired, u);
    }
  }

  lemma SettledStays(t: State, desired: seq<ServerTarget>, u: State)
    requires Inv(t) && !t.closed && Match(t.groups, Want(desired)) && t.wasEmpty == (t.groups == map[])
    requires Reconciled(t, desired, u)
    ensures u == t
  {
    var want := Want(desired);
    assert forall name <- want :: UpToDate(t.groups, want, name);
    assert u.groups == t.groups;
    assert !Runs(u.groups, u.started, |t.started|);
    assert u.started == t.started;
    assert u.cancelled == t.cancelled;
  }

  // ---------------------------------------------------------------- with ResolveTargets

  /** With distinct names, as ResolveTargets produces them, no entry is lost: the wanted
      targets are exactly the given ones. */
  lemma {:induction false} WantOfDistinct(ts: seq<ServerTarget>)
    requires DistinctNames(ts)
    ensures forall t <- ts :: t.name in Want(ts) && Want(ts)[t.name] == t
    ensures forall name <- Want(ts) :: Want(ts)[name] in ts
  {
    WantIsNamed(ts);
    if ts != [] {
      var front, last := ts[..|ts| - 1], ts[|ts| - 1];
      assert ts == front + [last];
      assert forall i, j :: 0 <= i < j < |front| ==> front[i] == ts[i] && front[j] == ts[j];
      WantOfDistinct(front);
      forall t | t in ts ensures t.name in Want(ts) && Want(ts)[t.name] == t {
        if t != last {
          var i :| 0 <= i < |front| && front[i] == t;
          assert ts[i].name != ts[|ts| - 1].name;
        }
      }
    }
  }

  /** An open supervisor that reconciled with what ResolveTargets selects runs exactly the
      first discovered server of each selected name. */
  lemma {:induction false} RunsWhatIsSelected(s: State, sel: ServerSelector, discovered: seq<ServerTarget>, t: State,
      target: ServerTarget)
    requires !s.closed && Reconciled(s, FirstOfEach(sel, discovered), t)
    ensures (target.name in t.groups && t.groups[target.name].target == target) <==>
            && Selected(sel, target.name)
            && exists i :: 0 <= i < |discovered| && discovered[i] == target && !Named(discovered[..i], target.name)
  {
    var ts := FirstOfEach(sel, discovered);
    FirstOfEachDistinct(sel, discovered);
    WantOfDistinct(ts);
    FirstOfEachExactly(sel, discovered, target);
  }
}
