/** The polling loop of `internal/rc/ops.go` that brings a fresh session up, and the tmux
    commands of `internal/rc/tmux.go` it drives. Nothing is assumed about the pane, about which
    commands fail, or about how long they take. */
module WaitReady {
  import opened Shell
  import opened RC

  const WAIT_TIMEOUT := 20_000
  const POLL_EVERY := 750

  /** One capture of the pane: the session is gone, the command failed otherwise, or a pane. */
  datatype Capture = Gone | Unreadable | Shows(pane: Pane)

  /** Whatever tmux answers: in turn `i` of the loop the i-th capture, the exit codes of the Down
      and Enter keys if they are sent, and the time spent besides one poll interval; and the exit
      code of each command that delivers the prompt. */
  datatype World = World(
    capture: nat -> Capture, down: nat -> int, enter: nat -> int, lag: nat -> nat, deliver: nat -> int)

  datatype Key = Down(code: int) | Enter(code: int)

  /** One turn of the loop: a capture and the keys sent before the next one. */
  datatype Turn = Turn(seen: Capture, keys: seq<Key>)

  /** The bypass dialog was accepted: Down, then Enter, and both went through. */
  predicate AcceptsBypass(t: Turn) {
    t.keys == [Down(0), Enter(0)]
  }

  predicate PressesEnterOnly(t: Turn) {
    |t.keys| == 1 && t.keys[0].Enter?
  }

  predicate BypassAccepted(turns: seq<Turn>) {
    exists t <- turns :: AcceptsBypass(t)
  }

  predicate TrustAnswered(turns: seq<Turn>) {
    exists t <- turns :: PressesEnterOnly(t)
  }

  // ---------------------------------------------------------------- the rule

  /** The pane asks to accept the bypass dialog, and no earlier turn did. */
  predicate FacesBypass(kind: Kind, bypass: bool, before: seq<Turn>, seen: Capture) {
    bypass && IsClaudeKind(kind) && seen.Shows? && IsBypassAcceptPrompt(seen.pane) && !BypassAccepted(before)
  }

  /** The pane asks to trust the folder, and no earlier turn answered that. */
  predicate FacesTrust(kind: Kind, bypass: bool, before: seq<Turn>, seen: Capture) {
    && !FacesBypass(kind, bypass, before, seen)
    && IsClaudeKind(kind) && seen.Shows? && IsTrustPrompt(seen.pane) && !TrustAnswered(before)
  }

  /** The turn that follows `before`. */
  function NextTurn(world: World, kind: Kind, bypass: bool, before: seq<Turn>): Turn {
    var i := |before|;
    var seen := world.capture(i);
    Turn(seen,
         if FacesBypass(kind, bypass, before, seen) then
           if world.down(i) == 0 then [Down(0), Enter(world.enter(i))] else [Down(world.down(i))]
         else if FacesTrust(kind, bypass, before, seen) then [Enter(world.enter(i))]
         else [])
  }

  /** The first n turns. */
  function Turns(world: World, kind: Kind, bypass: bool, n: nat): (turns: seq<Turn>)
    ensures |turns| == n
  {
    if n == 0 then []
    else Turns(world, kind, bypass, n - 1) + [NextTurn(world, kind, bypass, Turns(world, kind, bypass, n - 1))]
  }

  /** After this capture the loop is over: the session is gone, or it reached a state that no
      key press is going to change. */
  predicate Settles(kind: Kind, bypass: bool, before: seq<Turn>, seen: Capture) {
    || seen.Gone?
    || (seen.Shows? && !FacesBypass(kind, bypass, before, seen) && !FacesTrust(kind, bypass, before, seen)
        && !ClassifyPane(kind, seen.pane).0.Starting?)
  }

  /** When turn n starts, if there is one. */
  function Clock(world: World, n: nat): nat {
    if n == 0 then 0 else Clock(world, n - 1) + world.lag(n - 1) + POLL_EVERY
  }

  /** The loop makes exactly n turns. */
  predicate MakesTurns(world: World, kind: Kind, bypass: bool, n: nat) {
    && (forall i: nat :: i < n ==> Clock(world, i) < WAIT_TIMEOUT)
    && (forall i: nat :: i + 1 < n ==> !SettlesAt(world, kind, bypass, i))
    && (Clock(world, n) >= WAIT_TIMEOUT || (n > 0 && SettlesAt(world, kind, bypass, n - 1)))
  }

  predicate SettlesAt(world: World, kind: Kind, bypass: bool, i: nat) {
    Settles(kind, bypass, Turns(world, kind, bypass, i), world.capture(i))
  }

  /** The state the captures so far add up to: that of the last pane that was not just the
      bypass dialog being answered. */
  function StateAfter(world: World, kind: Kind, bypass: bool, n: nat): (State, string) {
    if n == 0 then (Starting, "")
    else
      var seen := world.capture(n - 1);
      if seen.Gone? then (Dead, "")
      else if seen.Unreadable? || FacesBypass(kind, bypass, Turns(world, kind, bypass, n - 1), seen) then
        StateAfter(world, kind, bypass, n - 1)
      else ClassifyPane(kind, seen.pane)
  }

  // ---------------------------------------------------------------- delivering a line

  datatype Command =
    | TypeLiterally(text: string, code: int)
    | SetBuffer(text: string, code: int)
    | PasteBuffer(code: int)
    | Submit(code: int)

  /** The text is handed over first and once, a block of several lines through the paste buffer;
      a command runs exactly if the one before it went through, and Enter is the last. */
  predicate Delivers(world: World, text: string, sent: seq<Command>) {
    var block := '\n' in text;
    && 1 <= |sent| <= (if block then 3 else 2)
    && sent[0] == (if block then SetBuffer(text, world.deliver(0)) else TypeLiterally(text, world.deliver(0)))
    && (|sent| > 1 <==> sent[0].code == 0)
    && (|sent| > 1 ==> sent[1] == if block then PasteBuffer(world.deliver(1)) else Submit(world.deliver(1)))
    && (block ==> (|sent| > 2 <==> |sent| > 1 && sent[1].code == 0))
    && (|sent| > 2 ==> sent[2] == Submit(world.deliver(2)))
  }

  /** Of the delivery itself: the first command carries the whole text and no other one does; a
      text of several lines is never typed; the text is submitted exactly when everything before
      went through, and then Enter comes last; and each command reports what tmux answered. */
  lemma DeliversExactly(world: World, text: string, sent: seq<Command>)
    requires Delivers(world, text, sent)
    ensures sent != [] && forall i :: 0 <= i < |sent| ==>
              && sent[i].code == world.deliver(i)
              && (sent[i].TypeLiterally? <==> i == 0 && '\n' !in text)
              && (sent[i].SetBuffer? <==> i == 0 && '\n' in text)
              && (sent[i].TypeLiterally? || sent[i].SetBuffer? ==> sent[i].text == text)
              && (sent[i].PasteBuffer? <==> i == 1 && '\n' in text)
              && (i + 1 < |sent| ==> sent[i].code == 0)
              && (i + 1 == |sent| ==> sent[i].Submit? || sent[i].code != 0)
  {
  }

  /** Types one line and submits it; a block of several lines goes through a paste buffer, so
      that no line of it is submitted early. A command only runs if the one before it went
      through, so the text is handed over first, once, and Enter is last. */
  method SendLine(world: World, text: string) returns (sent: seq<Command>, code: int)
    ensures Delivers(world, text, sent)
    ensures code == sent[|sent| - 1].code && (code == 0 <==> sent[|sent| - 1] == Submit(0))
  {
    if '\n' in text {
      sent, code := SendBlock(world, text);
      return;
    }
    sent, code := [TypeLiterally(text, world.deliver(0))], world.deliver(0);
    if code != 0 { return; }
    sent, code := sent + [Submit(world.deliver(1))], world.deliver(1);
  }

  method SendBlock(world: World, text: string) returns (sent: seq<Command>, code: int)
    ensures 1 <= |sent| <= 3 && sent[0] == SetBuffer(text, world.deliver(0))
    ensures |sent| > 1 <==> sent[0].code == 0
    ensures |sent| > 1 ==> sent[1] == PasteBuffer(world.deliver(1))
    ensures |sent| > 2 <==> |sent| > 1 && sent[1].code == 0
    ensures |sent| > 2 ==> sent[2] == Submit(world.deliver(2))
    ensures code == sent[|sent| - 1].code && (|sent| < 3 ==> code != 0)
  {
    sent, code := [SetBuffer(text, world.deliver(0))], world.deliver(0);
    if code != 0 { return; }
    sent, code := sent + [PasteBuffer(world.deliver(1))], world.deliver(1);
    if code != 0 { return; }
    sent, code := sent + [Submit(world.deliver(2))], world.deliver(2);
  }

  /** Moves to "Yes, I accept" and confirms; a failed Down must not confirm "No, exit". */
  method AcceptBypassPrompt(world: World, i: nat) returns (keys: seq<Key>, code: int)
    ensures keys == if world.down(i) == 0 then [Down(0), Enter(world.enter(i))] else [Down(world.down(i))]
    ensures code == 0 <==> keys == [Down(0), Enter(0)]
  {
    keys, code := [Down(world.down(i))], world.down(i);
    if code != 0 { return; }
    keys, code := keys + [Enter(world.enter(i))], world.enter(i);
  }

  // ---------------------------------------------------------------- the loop

  /** The turns so far, none of which was the last. */
  ghost predicate Going(world: World, kind: Kind, bypass: bool, turns: seq<Turn>, now: nat) {
    && turns == Turns(world, kind, bypass, |turns|) && now == Clock(world, |turns|)
    && (forall i: nat :: i < |turns| ==> Clock(world, i) < WAIT_TIMEOUT)
    && (forall i: nat :: i < |turns| ==> !SettlesAt(world, kind, bypass, i))
  }

  /** The variables of the loop. */
  datatype Progress = Progress(state: State, url: string, trustAccepted: bool, bypassAccepted: bool)

  ghost predicate Tracks(world: World, kind: Kind, bypass: bool, turns: seq<Turn>, p: Progress) {
    && (p.state, p.url) == StateAfter(world, kind, bypass, |turns|) && !p.state.Ready?
    && (p.bypassAccepted <==> BypassAccepted(turns)) && (p.trustAccepted <==> TrustAnswered(turns))
  }

  /** The rule as the loop decides it, from its two flags instead of the history. */
  predicate AtDialog(kind: Kind, bypass: bool, p: Progress, seen: Capture) {
    bypass && IsClaudeKind(kind) && !p.bypassAccepted && seen.Shows? && IsBypassAcceptPrompt(seen.pane)
  }

  predicate AtTrust(kind: Kind, bypass: bool, p: Progress, seen: Capture) {
    !AtDialog(kind, bypass, p, seen) && seen.Shows? && IsClaudeKind(kind) && IsTrustPrompt(seen.pane) &&
        !p.trustAccepted
  }

  lemma FlagsDecide(world: World, kind: Kind, bypass: bool, turns: seq<Turn>, p: Progress, seen: Capture)
    requires Tracks(world, kind, bypass, turns, p)
    ensures FacesBypass(kind, bypass, turns, seen) <==> AtDialog(kind, bypass, p, seen)
    ensures FacesTrust(kind, bypass, turns, seen) <==> AtTrust(kind, bypass, p, seen)
  {
  }

  lemma HistoryGrows(turns: seq<Turn>, t: Turn)
    ensures BypassAccepted(turns + [t]) <==> BypassAccepted(turns) || AcceptsBypass(t)
    ensures TrustAnswered(turns + [t]) <==> TrustAnswered(turns) || PressesEnterOnly(t)
  {
    assert t in turns + [t];
    assert forall u <- turns :: u in turns + [t];
  }

  /** A turn that settles nothing. */
  lemma GoesOn(world: World, kind: Kind, bypass: bool, turns: seq<Turn>, now: nat, t: Turn)
    requires Going(world, kind, bypass, turns, now) && now < WAIT_TIMEOUT && t == NextTurn(world, kind, bypass, turns)
    requires !Settles(kind, bypass, turns, t.seen)
    ensures Going(world, kind, bypass, turns + [t], now + world.lag(|turns|) + POLL_EVERY)
  {
    var n := |turns|;
    var longer := turns + [t];
    assert |longer| == n + 1;
    assert longer == Turns(world, kind, bypass, n + 1);
    assert Clock(world, n + 1) == now + world.lag(n) + POLL_EVERY;
    assert !SettlesAt(world, kind, bypass, n);
    forall i: nat | i < n + 1 ensures Clock(world, i) < WAIT_TIMEOUT && !SettlesAt(world, kind, bypass, i) {
      if i < n { assert Clock(world, i) < WAIT_TIMEOUT; }
    }
  }

  lemma StillTracks(world: World, kind: Kind, bypass: bool, turns: seq<Turn>, p: Progress, t: Turn, q: Progress)
    requires turns == Turns(world, kind, bypass, |turns|) && Tracks(world, kind, bypass, turns, p)
    requires t == NextTurn(world, kind, bypass, turns) && !Settles(kind, bypass, turns, t.seen)
    requires q.bypassAccepted <==> p.bypassAccepted || AcceptsBypass(t)
    requires q.trustAccepted <==> p.trustAccepted || PressesEnterOnly(t)
    requires (q.state, q.url) == if t.seen.Shows? && !FacesBypass(kind, bypass, turns, t.seen)
                                 then ClassifyPane(kind, t.seen.pane) else (p.state, p.url)
    ensures Tracks(world, kind, bypass, turns + [t], q)
  {
    HistoryGrows(turns, t);
    assert |turns + [t]| == |turns| + 1;
  }

  /** A turn that settles it. */
  lemma EndsSettled(world: World, kind: Kind, bypass: bool, turns: seq<Turn>, now: nat, t: Turn)
    requires Going(world, kind, bypass, turns, now) && now < WAIT_TIMEOUT && t == NextTurn(world, kind, bypass, turns)
    requires Settles(kind, bypass, turns, t.seen)
    ensures turns + [t] == Turns(world, kind, bypass, |turns| + 1) && MakesTurns(world, kind, bypass, |turns| + 1)
    ensures StateAfter(world, kind, bypass, |turns| + 1) == if t.seen.Gone? then (Dead, "")
              else ClassifyPane(kind, t.seen.pane)
  {
    assert SettlesAt(world, kind, bypass, |turns|);
  }

  /** What one pass through the body of the loop does, in terms of its variables. */
  predicate Reacts(world: World, kind: Kind, bypass: bool, p: Progress, seen: Capture, i: nat, keys: seq<Key>,
      q: Progress, over: bool) {
    && keys == (if AtDialog(kind, bypass, p, seen) then
                  if world.down(i) == 0 then [Down(0), Enter(world.enter(i))] else [Down(world.down(i))]
                else if AtTrust(kind, bypass, p, seen) then [Enter(world.enter(i))]
                else [])
    && (over <==> seen.Gone? || (seen.Shows? && !AtDialog(kind, bypass, p, seen) && !AtTrust(kind, bypass, p, seen)
                                 && !ClassifyPane(kind, seen.pane).0.Starting?))
    && (q.bypassAccepted <==> p.bypassAccepted || keys == [Down(0), Enter(0)])
    && (q.trustAccepted <==> p.trustAccepted || AtTrust(kind, bypass, p, seen))
    && (q.state, q.url) == (if seen.Gone? then (Dead, "")
                            else if seen.Shows? && !AtDialog(kind, bypass, p, seen) then ClassifyPane(kind, seen.pane)
                            else (p.state, p.url))
  }

  /** The loop is over after these turns, with this state. */
  predicate Finished(world: World, kind: Kind, bypass: bool, turns: seq<Turn>, state: State, url: string) {
    && turns == Turns(world, kind, bypass, |turns|) && MakesTurns(world, kind, bypass, |turns|)
    && (state, url) == StateAfter(world, kind, bypass, |turns|)
  }

  lemma OneTurn(world: World, kind: Kind, bypass: bool, turns: seq<Turn>, now: nat, p: Progress, t: Turn, q: Progress,
      over: bool)
    requires Going(world, kind, bypass, turns, now) && Tracks(world, kind, bypass, turns, p) && now < WAIT_TIMEOUT
    requires t.seen == world.capture(|turns|) && Reacts(world, kind, bypass, p, t.seen, |turns|, t.keys, q, over)
    ensures over ==> Finished(world, kind, bypass, turns + [t], q.state, q.url)
    ensures !over ==>
              && Going(world, kind, bypass, turns + [t], now + world.lag(|turns|) + POLL_EVERY)
              && Tracks(world, kind, bypass, turns + [t], q)
  {
    FlagsDecide(world, kind, bypass, turns, p, t.seen);
    assert t == NextTurn(world, kind, bypass, turns);
    if over {
      EndsSettled(world, kind, bypass, turns, now, t);
    } else {
      GoesOn(world, kind, bypass, turns, now, t);
      StillTracks(world, kind, bypass, turns, p, t, q);
    }
  }

  lemma TimesOut(world: World, kind: Kind, bypass: bool, turns: seq<Turn>, now: nat, p: Progress)
    requires Going(world, kind, bypass, turns, now) && Tracks(world, kind, bypass, turns, p) && now >= WAIT_TIMEOUT
    ensures Finished(world, kind, bypass, turns, p.state, p.url)
  {
  }

  /** Polls until the session settles or the time is up. */
  method Poll(world: World, kind: Kind, bypass: bool) returns (state: State, url: string, turns: seq<Turn>)
    ensures turns == Turns(world, kind, bypass, |turns|) && MakesTurns(world, kind, bypass, |turns|)
    ensures (state, url) == StateAfter(world, kind, bypass, |turns|)
  {
    turns := [];
    var p := Progress(Starting, "", false, false);
    var now := 0;
    while now < WAIT_TIMEOUT
      invariant Going(world, kind, bypass, turns, now) && Tracks(world, kind, bypass, turns, p)
      decreases WAIT_TIMEOUT - now
    {
      var keys, q, over := React(world, kind, bypass, p, |turns|);
      var t := Turn(world.capture(|turns|), keys);
      OneTurn(world, kind, bypass, turns, now, p, t, q, over);
      if over { return q.state, q.url, turns + [t]; }
      now := now + world.lag(|turns|) + POLL_EVERY;
      turns, p := turns + [t], q;
    }
    TimesOut(world, kind, bypass, turns, now, p);
    return p.state, p.url, turns;
  }

  /** The body of the loop. */
  method React(world: World, kind: Kind, bypass: bool, p: Progress, i: nat)
      returns (keys: seq<Key>, q: Progress, over: bool)
    ensures Reacts(world, kind, bypass, p, world.capture(i), i, keys, q, over)
  {
    keys, q, over := [], p, false;
    var seen := world.capture(i);
    if seen.Gone? { return [], q.(state := Dead, url := ""), true; }
    if seen.Unreadable? { return; }
    if bypass && IsClaudeKind(kind) && !q.bypassAccepted && IsBypassAcceptPrompt(seen.pane) {
      var code;
      keys, code := AcceptBypassPrompt(world, i);
      if code == 0 { q := q.(bypassAccepted := true); }
      return;
    }
    var classified := ClassifyPane(kind, seen.pane);
    q := q.(state := classified.0, url := classified.1);
    if q.state.NeedsTrust? && IsClaudeKind(kind) && !q.trustAccepted {
      q := q.(trustAccepted := true);
      if IsTrustPrompt(seen.pane) {
        keys := [Enter(world.enter(i))];
      }
      return;
    }
    over := !q.state.Starting?;
  }

  method WaitUntilReady(world: World, kind: Kind, prompt: string, bypass: bool)
    returns (state: State, url: string, turns: seq<Turn>, delivery: seq<Command>)
    ensures turns == Turns(world, kind, bypass, |turns|) && MakesTurns(world, kind, bypass, |turns|)
    ensures (state, url) == StateAfter(world, kind, bypass, |turns|)
    ensures if state.Ready? && prompt != "" then Delivers(world, prompt, delivery) else delivery == []
  {
    state, url, turns := Poll(world, kind, bypass);
    delivery := [];
    if state.Ready? && prompt != "" {
      var code;
      delivery, code := SendLine(world, prompt);
    }
  }

  // ---------------------------------------------------------------- what the keys promise

  lemma {:induction false} TurnAt(world: World, kind: Kind, bypass: bool, n: nat, i: nat)
    requires i < n
    ensures Turns(world, kind, bypass, n)[..i] == Turns(world, kind, bypass, i)
    ensures Turns(world, kind, bypass, n)[i] == NextTurn(world, kind, bypass, Turns(world, kind, bypass, i))
  {
    var front := Turns(world, kind, bypass, n - 1);
    if i < n - 1 {
      TurnAt(world, kind, bypass, n - 1, i);
      assert (front + [NextTurn(world, kind, bypass, front)])[..i] == front[..i];
    } else {
      assert (front + [NextTurn(world, kind, bypass, front)])[..i] == front;
    }
  }

  /** However the panes come, at most one turn presses Enter on its own; it does so right after
      a capture that shows the trust prompt, and it is the first one the loop could answer. */
  lemma OneTrustEnter(world: World, kind: Kind, bypass: bool, n: nat, i: nat, j: nat)
    requires i < n && j < n
    requires PressesEnterOnly(Turns(world, kind, bypass, n)[i]) && PressesEnterOnly(Turns(world, kind, bypass, n)[j])
    ensures i == j
    ensures var seen := Turns(world, kind, bypass, n)[i].seen;
            !kind.PlainShell? && seen.Shows? && ShowsTrust(seen.pane) && ClassifyPane(kind, seen.pane).0.NeedsTrust?
  {
    TurnAt(world, kind, bypass, n, i);
    TurnAt(world, kind, bypass, n, j);
  }

  /** Down is pressed only under the bypass mode, right after a capture that shows the bypass
      dialog, and never again once the dialog was accepted; and Enter then only follows a Down
      that went through. */
  lemma {:induction false} DownOnlyAtDialog(world: World, kind: Kind, bypass: bool, n: nat, i: nat)
    requires i < n && Turns(world, kind, bypass, n)[i].keys != [] && !PressesEnterOnly(Turns(world, kind, bypass, n)[i])
    ensures var t := Turns(world, kind, bypass, n)[i];
            && bypass && !kind.PlainShell? && t.seen.Shows? && t.seen.pane.bypassWarn && t.seen.pane.bypassAccept
            && t.keys[0].Down? && (|t.keys| == 2 <==> t.keys[0].code == 0) && (|t.keys| == 2 ==> t.keys[1].Enter?)
    ensures forall j: nat :: j < i ==> !AcceptsBypass(Turns(world, kind, bypass, n)[j])
  {
    TurnAt(world, kind, bypass, n, i);
    var turns := Turns(world, kind, bypass, n);
    forall j: nat | j < i ensures !AcceptsBypass(turns[j]) {
      assert turns[..i][j] == turns[j];
    }
  }

  /** Every prompt that can be answered is: the dialog under bypass until it was accepted, and
      the first trust prompt outside it. */
  lemma PromptsAreAnswered(world: World, kind: Kind, bypass: bool, n: nat, i: nat)
    requires i < n && !kind.PlainShell? && world.capture(i).Shows?
    ensures var turns, pane := Turns(world, kind, bypass, n), world.capture(i).pane;
            var dialog := bypass && pane.bypassWarn && pane.bypassAccept && !BypassAccepted(turns[..i]);
            && (dialog ==> turns[i].keys != [] && turns[i].keys[0].Down?)
            && (!dialog && ShowsTrust(pane) && !TrustAnswered(turns[..i]) ==>
                 PressesEnterOnly(turns[i]))
  {
    TurnAt(world, kind, bypass, n, i);
  }

  /** The prompt is typed only when the last capture of all shows a ready pane. */
  lemma TypesOnlyWhenReady(world: World, kind: Kind, bypass: bool, n: nat)
    requires MakesTurns(world, kind, bypass, n)
    ensures StateAfter(world, kind, bypass, n).0.Ready? ==>
              n > 0 && world.capture(n - 1).Shows? && ClassifyPane(kind, world.capture(n - 1).pane).0.Ready?
  {
    if n > 0 { NotReadyBefore(world, kind, bypass, n - 1); }
  }

  /** Once a capture finds the session gone it was the last, no key follows it, and the outcome
      is dead, so nothing is typed either. */
  lemma {:induction false} GoneIsTheEnd(world: World, kind: Kind, bypass: bool, n: nat, i: nat)
    requires MakesTurns(world, kind, bypass, n) && i < n && world.capture(i).Gone?
    ensures i == n - 1 && Turns(world, kind, bypass, n)[i].keys == [] &&
              StateAfter(world, kind, bypass, n) == (Dead, "")
  {
    assert SettlesAt(world, kind, bypass, i);
    TurnAt(world, kind, bypass, n, i);
  }

  lemma {:induction false} NotReadyBefore(world: World, kind: Kind, bypass: bool, n: nat)
    requires forall i: nat :: i < n ==> !SettlesAt(world, kind, bypass, i)
    ensures !StateAfter(world, kind, bypass, n).0.Ready?
  {
    if n > 0 {
      assert !SettlesAt(world, kind, bypass, n - 1);
      NotReadyBefore(world, kind, bypass, n - 1);
    }
  }

  // ---------------------------------------------------------------- when it stops, and with what

  /** The turn showed a state of its own and no key was pressed to change it. */
  predicate Final(kind: Kind, t: Turn) {
    t.seen.Gone? || (t.seen.Shows? && t.keys == [] && !ClassifyPane(kind, t.seen.pane).0.Starting?)
  }

  /** The loop stops at the first turn that finds the session gone, or in any state but starting
      that calls for no key; and if it stops before the time is up, it stopped at one. */
  lemma StopsAtFirstFinal(world: World, kind: Kind, bypass: bool, n: nat, i: nat)
    requires MakesTurns(world, kind, bypass, n) && i < n
    ensures Final(kind, Turns(world, kind, bypass, n)[i]) ==> i == n - 1
    ensures i == n - 1 && Clock(world, n) < WAIT_TIMEOUT ==> Final(kind, Turns(world, kind, bypass, n)[i])
  {
    TurnAt(world, kind, bypass, n, i);
    assert i + 1 < n ==> !SettlesAt(world, kind, bypass, i);
  }

  /** The turn only answered the bypass dialog, or saw nothing at all. */
  predicate ShowsNothingNew(t: Turn) {
    t.seen.Unreadable? || (t.keys != [] && t.keys[0].Down?)
  }

  lemma OneMoreTurn(world: World, kind: Kind, bypass: bool, i: nat)
    ensures var t := NextTurn(world, kind, bypass, Turns(world, kind, bypass, i));
            StateAfter(world, kind, bypass, i + 1) ==
              if t.seen.Gone? then (Dead, "")
              else if ShowsNothingNew(t) then StateAfter(world, kind, bypass, i)
              else ClassifyPane(kind, t.seen.pane)
  {
  }

  lemma {:induction false} NothingNewKeeps(world: World, kind: Kind, bypass: bool, i: nat, n: nat)
    requires i <= n
    requires forall j: nat :: i <= j < n ==> ShowsNothingNew(TurnOf(world, kind, bypass, j))
    ensures StateAfter(world, kind, bypass, n) == StateAfter(world, kind, bypass, i)
  {
    if i < n {
      NothingNewKeeps(world, kind, bypass, i, n - 1);
      assert ShowsNothingNew(TurnOf(world, kind, bypass, n - 1));
      OneMoreTurn(world, kind, bypass, n - 1);
      NoKeysWhenGone(world, kind, bypass, n - 1);
    }
  }

  function TurnOf(world: World, kind: Kind, bypass: bool, i: nat): Turn {
    NextTurn(world, kind, bypass, Turns(world, kind, bypass, i))
  }

  /** What is reported is what the last telling capture showed: a session found gone is dead, a
      pane is classified, and without any telling capture the session is starting. */
  lemma {:induction false} ReportsLastSeen(world: World, kind: Kind, bypass: bool, n: nat, i: nat)
    requires i < n && forall j: nat :: i < j < n ==> ShowsNothingNew(Turns(world, kind, bypass, n)[j])
    ensures var t := Turns(world, kind, bypass, n)[i];
            && (t.seen.Gone? ==> StateAfter(world, kind, bypass, n) == (Dead, ""))
            && (t.seen.Shows? && !ShowsNothingNew(t) ==>
                  StateAfter(world, kind, bypass, n) == ClassifyPane(kind, t.seen.pane))
            && (i == 0 && ShowsNothingNew(t) ==> StateAfter(world, kind, bypass, n) == (Starting, ""))
  {
    forall j: nat | i + 1 <= j < n ensures ShowsNothingNew(TurnOf(world, kind, bypass, j)) {
      TurnAt(world, kind, bypass, n, j);
    }
    NothingNewKeeps(world, kind, bypass, i + 1, n);
    TurnAt(world, kind, bypass, n, i);
    OneMoreTurn(world, kind, bypass, i);
    NoKeysWhenGone(world, kind, bypass, i);
  }

  lemma NoKeysWhenGone(world: World, kind: Kind, bypass: bool, i: nat)
    ensures world.capture(i).Gone? ==> TurnOf(world, kind, bypass, i).keys == []
  {
  }

  // ---------------------------------------------------------------- how long it polls

  lemma {:induction false} ClockRuns(world: World, n: nat)
    ensures Clock(world, n) >= n * POLL_EVERY
    ensures (forall i: nat :: i < n ==> world.lag(i) == 0) ==> Clock(world, n) == n * POLL_EVERY
  {
    if n > 0 { ClockRuns(world, n - 1); }
  }

  /** The loop makes between one and 27 captures whatever happens; and if the commands take no
      time and nothing settles, it makes exactly 27. */
  lemma AtMost27Captures(world: World, kind: Kind, bypass: bool, n: nat)
    requires MakesTurns(world, kind, bypass, n)
    ensures 1 <= n <= 27
    ensures (forall i: nat :: i < 27 ==> world.lag(i) == 0 && !SettlesAt(world, kind, bypass, i)) ==> n == 27
  {
    assert n > 0 ==> Clock(world, n - 1) < WAIT_TIMEOUT;
    if n > 0 { ClockRuns(world, n - 1); }
    ClockRuns(world, n);
  }

  /** The number of turns, and so the whole outcome, is determined by what tmux answers. */
  lemma {:induction false} OneOutcome(world: World, kind: Kind, bypass: bool, m: nat, n: nat)
    requires MakesTurns(world, kind, bypass, m) && MakesTurns(world, kind, bypass, n)
    ensures m == n
  {
    if m < n { EarlierIsNotOver(world, kind, bypass, m, n); }
    if n < m { EarlierIsNotOver(world, kind, bypass, n, m); }
  }

  lemma EarlierIsNotOver(world: World, kind: Kind, bypass: bool, m: nat, n: nat)
    requires m < n && MakesTurns(world, kind, bypass, n)
    ensures !MakesTurns(world, kind, bypass, m)
  {
    assert Clock(world, m) < WAIT_TIMEOUT;
    if m > 0 { assert !SettlesAt(world, kind, bypass, m - 1); }
  }
}
