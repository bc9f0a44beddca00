/** The debounce loop of `cmd/shed-host-agent/watcher.go`. Time is in any unit; the loop's select
    statement is fed by a sequence of offers, each some time after the one before, and an offer
    the loop cannot take at that moment (a timer that is not armed or not due) is passed over. */
module Watchers {
  import opened Basics

  /** What becomes ready: an event for the file with this base name, an error, the timer, or the
      shutdown of the context or of a channel. */
  datatype Arm = FileEvent(base: string) | WatchError | TimerDue | Shutdown

  datatype Offer = Offer(delay: nat, arm: Arm)

  /** What the loop saw and did, in order: an event for the watched file, or a reconcile. */
  datatype Mark = Changed(at: nat) | Reconciled(at: nat)

  function TimeAfter(offers: seq<Offer>): nat {
    if offers == [] then 0 else TimeAfter(offers[..|offers| - 1]) + offers[|offers| - 1].delay
  }

  predicate Stopped(offers: seq<Offer>) {
    exists o <- offers :: o.arm.Shutdown?
  }

  /** When the timer is due: the debounce after the last change, if no reconcile came since. */
  function DueAt(debounce: nat, log: seq<Mark>): Option<nat> {
    if log != [] && log[|log| - 1].Changed? then Some(log[|log| - 1].at + debounce) else None
  }

  /** The marks that one more offer adds to a log. */
  function Marks(debounce: nat, watched: string, log: seq<Mark>, at: nat, arm: Arm): seq<Mark> {
    match arm
    case FileEvent(base) => if base == watched then [Changed(at)] else []
    case TimerDue => if DueAt(debounce, log).Some? && at >= DueAt(debounce, log).value then [Reconciled(at)] else []
    case _ => []
  }

  function Log(debounce: nat, watched: string, offers: seq<Offer>): seq<Mark> {
    if offers == [] then []
    else
      var front, last := offers[..|offers| - 1], offers[|offers| - 1];
      var log := Log(debounce, watched, front);
      if Stopped(front) then log else log + Marks(debounce, watched, log, TimeAfter(offers), last.arm)
  }

  lemma OneMoreOffer(debounce: nat, watched: string, offers: seq<Offer>, i: nat)
    requires i < |offers| && !Stopped(offers[..i])
    ensures var now := TimeAfter(offers[..i + 1]);
            && now == TimeAfter(offers[..i]) + offers[i].delay
            && (Stopped(offers[..i + 1]) <==> offers[i].arm.Shutdown?)
            && var log := Log(debounce, watched, offers[..i]);
               Log(debounce, watched, offers[..i + 1]) == log + Marks(debounce, watched, log, now, offers[i].arm)
  {
    assert offers[..i + 1][..i] == offers[..i];
    assert offers[i] in offers[..i + 1];
    assert forall o <- offers[..i + 1] :: o in offers[..i] || o == offers[i];
  }

  /** The loop with its one timer. The timer is armed exactly while some change has not been
      followed by a reconcile, and then it is due one debounce after the last of them. */
  method RunFsnotifyLoop(debounce: nat, watched: string, offers: seq<Offer>)
      returns (log: seq<Mark>, timer: Option<nat>)
    ensures log == Log(debounce, watched, offers)
    ensures timer == if Stopped(offers) then None else DueAt(debounce, log)
    ensures timer.Some? <==>
            && !Stopped(offers)
            && exists i :: 0 <= i < |log| && log[i].Changed? && forall j :: i < j < |log| ==> log[j].Changed?
  {
    log, timer := [], None;
    var now := 0;
    for i := 0 to |offers|
      invariant log == Log(debounce, watched, offers[..i]) && timer == DueAt(debounce, log)
      invariant now == TimeAfter(offers[..i]) && !Stopped(offers[..i])
    {
      OneMoreOffer(debounce, watched, offers, i);
      now := now + offers[i].delay;
      match offers[i].arm {
        case Shutdown =>
          StopEndsLog(debounce, watched, offers, i + 1);
          return log, None;
        case FileEvent(base) =>
          if base == watched {
            log, timer := log + [Changed(now)], Some(now + debounce);
          }
        case WatchError =>
        case TimerDue =>
          if timer.Some? && now >= timer.value {
            log, timer := log + [Reconciled(now)], None;
          }
      }
    }
    assert offers[..|offers|] == offers;
    ArmedExactly(debounce, log);
  }

  lemma ArmedExactly(debounce: nat, log: seq<Mark>)
    ensures DueAt(debounce, log).Some? <==>
            exists i :: 0 <= i < |log| && log[i].Changed? && forall j :: i < j < |log| ==> log[j].Changed?
  {
    if DueAt(debounce, log).Some? { assert log[|log| - 1].Changed?; }
  }

  /** After a shutdown nothing is logged any more. */
  lemma {:induction false} StopEndsLog(debounce: nat, watched: string, offers: seq<Offer>, n: nat)
    requires n <= |offers| && Stopped(offers[..n])
    ensures Log(debounce, watched, offers) == Log(debounce, watched, offers[..n]) && Stopped(offers)
  {
    if n == |offers| {
      assert offers[..n] == offers;
    } else {
      var front := offers[..|offers| - 1];
      assert front[..n] == offers[..n];
      StopEndsLog(debounce, watched, front, n);
      assert forall o <- front :: o in offers;
    }
  }

  // ---------------------------------------------------------------- every run

  /** A debounced reconcile always comes right after a change, with nothing in between, and at
      least one debounce later; and times never go back. */
  ghost predicate Debounced(debounce: nat, log: seq<Mark>) {
    forall i :: 0 <= i < |log| ==> DebouncedAt(debounce, log, i)
  }

  predicate DebouncedAt(debounce: nat, log: seq<Mark>, i: nat)
    requires i < |log|
  {
    && (i > 0 ==> log[i - 1].at <= log[i].at)
    && (log[i].Reconciled? ==> i > 0 && log[i - 1].Changed? && log[i].at >= log[i - 1].at + debounce)
  }

  lemma {:induction false} LogIsDebounced(debounce: nat, watched: string, offers: seq<Offer>)
    ensures var log := Log(debounce, watched, offers);
            Debounced(debounce, log) && (log != [] ==> log[|log| - 1].at <= TimeAfter(offers))
  {
    if offers != [] {
      var before, log := Log(debounce, watched, offers[..|offers| - 1]), Log(debounce, watched, offers);
      LogIsDebounced(debounce, watched, offers[..|offers| - 1]);
      forall i | 0 <= i < |log| ensures DebouncedAt(debounce, log, i) {
        if i < |before| { assert DebouncedAt(debounce, before, i); }
      }
    }
  }

  /** The quiet period, as a caller sees it: no change of the file lies within one debounce
      before a reconcile. */
  lemma QuietBeforeReconcile(debounce: nat, watched: string, offers: seq<Offer>, i: nat, j: nat)
    requires var log := Log(debounce, watched, offers); i < j < |log| && log[i].Changed? && log[j].Reconciled?
    ensures var log := Log(debounce, watched, offers); log[j].at >= log[i].at + debounce
  {
    LogIsDebounced(debounce, watched, offers);
    TimesOrdered(debounce, Log(debounce, watched, offers), i, j - 1);
  }

  lemma {:induction false} TimesOrdered(debounce: nat, log: seq<Mark>, i: nat, j: nat)
    requires Debounced(debounce, log) && i <= j < |log|
    ensures log[i].at <= log[j].at
  {
    if i < j {
      TimesOrdered(debounce, log, i, j - 1);
      assert DebouncedAt(debounce, log, j);
    }
  }

  function CountReconciles(log: seq<Mark>): nat {
    if log == [] then 0 else CountReconciles(log[..|log| - 1]) + if log[|log| - 1].Reconciled? then 1 else 0
  }

  function CountChanges(log: seq<Mark>): nat {
    if log == [] then 0 else CountChanges(log[..|log| - 1]) + if log[|log| - 1].Changed? then 1 else 0
  }

  lemma {:induction false} AtMostOnePerChange(debounce: nat, log: seq<Mark>)
    requires Debounced(debounce, log)
    ensures CountReconciles(log) + (if log != [] && log[|log| - 1].Changed? then 1 else 0) <= CountChanges(log)
  {
    if log != [] {
      var front := log[..|log| - 1];
      forall i | 0 <= i < |front| ensures DebouncedAt(debounce, front, i) {
        assert DebouncedAt(debounce, log, i);
      }
      assert DebouncedAt(debounce, log, |log| - 1);
      AtMostOnePerChange(debounce, front);
    }
  }

  /** However the offers come, there are never more debounced reconciles than changes. */
  lemma ReconcilesNeverExceedChanges(debounce: nat, watched: string, offers: seq<Offer>)
    ensures CountReconciles(Log(debounce, watched, offers)) <= CountChanges(Log(debounce, watched, offers))
  {
    LogIsDebounced(debounce, watched, offers);
    AtMostOnePerChange(debounce, Log(debounce, watched, offers));
  }

  /** No change is forgotten: unless the loop was shut down, every change in the log is followed
      by a reconcile, or the timer is still armed and reconciles as soon as it is offered one
      debounce after the last change of the watched file, whatever other offers came since. */
  lemma EveryChangeIsServed(debounce: nat, watched: string, offers: seq<Offer>, i: nat, wait: nat)
    requires !Stopped(offers) && i < |Log(debounce, watched, offers)| && Log(debounce, watched, offers)[i].Changed?
    requires var log := Log(debounce, watched, offers);
             log[|log| - 1].Changed? ==> TimeAfter(offers) + wait >= log[|log| - 1].at + debounce
    ensures var log := Log(debounce, watched, offers);
            var later := Log(debounce, watched, offers + [Offer(wait, TimerDue)]);
            && log <= later
            && exists j :: i < j < |later| && later[j].Reconciled?
  {
    var log := Log(debounce, watched, offers);
    var more := offers + [Offer(wait, TimerDue)];
    assert more[..|more| - 1] == offers;
    var later := Log(debounce, watched, more);
    if log[|log| - 1].Reconciled? {
      assert later[|log| - 1].Reconciled?;
    } else {
      assert later[|later| - 1] == Reconciled(TimeAfter(more));
    }
  }

  /** Every change that was offered before a shutdown is in the log, with its time. */
  lemma {:induction false} NoChangeIsMissed(debounce: nat, watched: string, offers: seq<Offer>, i: nat)
    requires i < |offers| && !Stopped(offers[..i]) && offers[i].arm == FileEvent(watched)
    ensures Changed(TimeAfter(offers[..i + 1])) in Log(debounce, watched, offers)
  {
    var front := offers[..|offers| - 1];
    if i < |front| {
      assert front[..i] == offers[..i] && front[..i + 1] == offers[..i + 1];
      NoChangeIsMissed(debounce, watched, front, i);
    } else {
      assert offers[..i] == front && offers[..i + 1] == offers;
    }
  }

  /** Only events for the watched file count: every change in the log was offered as one, at that
      time and before any shutdown. */
  lemma {:induction false} OnlyWatchedIsLogged(debounce: nat, watched: string, offers: seq<Offer>, at: nat)
    requires Changed(at) in Log(debounce, watched, offers)
    ensures exists i :: 0 <= i < |offers| && offers[i].arm == FileEvent(watched)
                        && TimeAfter(offers[..i + 1]) == at && !Stopped(offers[..i])
  {
    var front, last := offers[..|offers| - 1], offers[|offers| - 1];
    if Changed(at) in Log(debounce, watched, front) {
      OnlyWatchedIsLogged(debounce, watched, front, at);
      var i :| 0 <= i < |front| && front[i].arm == FileEvent(watched)
               && TimeAfter(front[..i + 1]) == at && !Stopped(front[..i]);
      assert offers[i] == front[i] && offers[..i + 1] == front[..i + 1] && offers[..i] == front[..i];
    } else {
      assert offers[..|offers| - 1 + 1] == offers;
      assert last.arm == FileEvent(watched) && TimeAfter(offers) == at && !Stopped(front);
    }
  }

  /** And only the timer reconciles: every reconcile in the log is an offer of the timer at that
      time. */
  lemma {:induction false} OnlyTimerReconciles(debounce: nat, watched: string, offers: seq<Offer>, at: nat)
    requires Reconciled(at) in Log(debounce, watched, offers)
    ensures exists i :: 0 <= i < |offers| && offers[i].arm == TimerDue
                        && TimeAfter(offers[..i + 1]) == at && !Stopped(offers[..i])
  {
    var front, last := offers[..|offers| - 1], offers[|offers| - 1];
    if Reconciled(at) in Log(debounce, watched, front) {
      OnlyTimerReconciles(debounce, watched, front, at);
      var i :| 0 <= i < |front| && front[i].arm == TimerDue
               && TimeAfter(front[..i + 1]) == at && !Stopped(front[..i]);
      assert offers[i] == front[i] && offers[..i + 1] == front[..i + 1] && offers[..i] == front[..i];
    } else {
      assert offers[..|offers| - 1 + 1] == offers;
      assert last.arm == TimerDue && TimeAfter(offers) == at && !Stopped(front);
    }
  }

  /** Every mark is counted, as one or the other. */
  lemma {:induction false} EveryMarkCounts(log: seq<Mark>)
    ensures CountReconciles(log) + CountChanges(log) == |log|
    ensures CountChanges(log) == |log| <==> forall i :: 0 <= i < |log| ==> log[i].Changed?
  {
    if log != [] {
      var front := log[..|log| - 1];
      EveryMarkCounts(front);
      assert forall i :: 0 <= i < |front| ==> log[i] == front[i];
    }
  }
}
