/** The approval channel of `cmd/shed-host-agent/desktop_server.go`: one active consumer,
    last writer wins, and pending requests owned by the connection they were sent to.

    `System` interleaves the critical sections of any number of requests and connections
    with the off-lock steps between them (sending the request, delivering a decision,
    giving up). The server object itself is in `DesktopServers`. */
module DesktopApprovals {
  import opened Basics

  /** A connection stands for its `*consumerConn`; a request id for one `newID()`. */
  type ConnId = nat
  type RequestId = string

  datatype Decision = Decision(approved: bool, decidedBy: string, scope: string, ttl: string)

  const DENIED := Decision(false, "", "", "")

  datatype Failure = SendFailed | TimedOut | Cancelled

  // ---------------------------------------------------------------- critical sections

  /** A non-blocking send to a channel of capacity one. */
  function Offer(buf: seq<Decision>, d: Decision): seq<Decision> {
    if buf == [] then [d] else buf
  }

  function DemoteConsumer(consumer: Option<ConnId>, c: ConnId): Option<ConnId> {
    if consumer == Some(c) then None else consumer
  }

  /** The pending requests that survive a disconnect of `c`. */
  function NotOwnedBy(pending: map<RequestId, ConnId>, c: ConnId): map<RequestId, ConnId> {
    map id | id in pending && pending[id] != c :: pending[id]
  }

  predicate MayResolve(pending: map<RequestId, ConnId>, id: RequestId, from: ConnId) {
    id in pending && pending[id] == from
  }

  // ---------------------------------------------------------------- the interleaved system

  /** A connection: handshake done, reading frames, between taking a request out of `pending`
      and handing over its decision, or disconnected. Each is promoted once. */
  datatype Conn = Acked | Reading | Delivering(id: RequestId, dec: Decision) | Gone

  /** One RequestApproval call. `chan` is its channel, `offered` and `dropped` count the sends
      to it that were accepted and that fell into a `default` arm. */
  datatype Request = Request(
    owner: ConnId, sent: bool, chan: seq<Decision>, offered: nat, dropped: nat,
    result: Option<Result<Decision, Failure>>, finished: bool)

  datatype System = System(
    consumer: Option<ConnId>, pending: map<RequestId, ConnId>,
    requests: map<RequestId, Request>, conns: seq<Conn>)

  datatype Event =
    | Accept
    | Promote(c: ConnId)
    | Demote(c: ConnId)
    | Begin(id: RequestId)                                // locked section of RequestApproval
    | SendRequest(id: RequestId, ok: bool)
    | Receive(id: RequestId)
    | GiveUp(id: RequestId, why: Failure)
    | Finish(id: RequestId)                               // its deferred delete
    | Answer(c: ConnId, id: RequestId, dec: Decision)     // locked section of resolve
    | Deliver(c: ConnId)                                  // its send, off the lock

  function Offered(r: Request, d: Decision): Request {
    if r.chan == [] then r.(chan := Offer(r.chan, d), offered := r.offered + 1)
    else r.(dropped := r.dropped + 1)
  }

  predicate Enabled(s: System, e: Event) {
    match e
    case Accept => true
    case Promote(c) => c < |s.conns| && s.conns[c].Acked?
    case Demote(c) => c < |s.conns| && s.conns[c].Reading?
    case Begin(id) => id !in s.requests
    case SendRequest(id, ok) => id in s.requests && !s.requests[id].sent && s.requests[id].result.None?
    case Receive(id) => id in s.requests && s.requests[id].sent && s.requests[id].result.None?
                        && s.requests[id].chan != []
    case GiveUp(id, why) => id in s.requests && s.requests[id].sent && s.requests[id].result.None? && !why.SendFailed?
    case Finish(id) => id in s.requests && s.requests[id].result.Some? && !s.requests[id].finished
    case Answer(c, id, dec) => c < |s.conns| && s.conns[c].Reading?
    case Deliver(c) => c < |s.conns| && s.conns[c].Delivering? && s.conns[c].id in s.requests
  }

  function Apply(s: System, e: Event): System
    requires Enabled(s, e)
  {
    match e
    case Accept => s.(conns := s.conns + [Acked])
    case Promote(c) => s.(consumer := Some(c), conns := s.conns[c := Reading])
    case Demote(c) =>
      s.(consumer := DemoteConsumer(s.consumer, c), conns := s.conns[c := Gone], pending := NotOwnedBy(s.pending, c),
         requests := map id | id in s.requests ::
           if id in s.pending && s.pending[id] == c then Offered(s.requests[id], DENIED) else s.requests[id])
    case Begin(id) =>
      if s.consumer.None? then s
      else s.(pending := s.pending[id := s.consumer.value],
              requests := s.requests[id := Request(s.consumer.value, false, [], 0, 0, None, false)])
    case SendRequest(id, ok) =>
      var r := s.requests[id];
      s.(requests := s.requests[id := if ok then r.(sent := true) else r.(result := Some(Err(SendFailed)))])
    case Receive(id) =>
      var r := s.requests[id];
      s.(requests := s.requests[id := r.(chan := [], result := Some(Ok(r.chan[0])))])
    case GiveUp(id, why) => s.(requests := s.requests[id := s.requests[id].(result := Some(Err(why)))])
    case Finish(id) =>
      s.(pending := s.pending - {id}, requests := s.requests[id := s.requests[id].(finished := true)])
    case Answer(c, id, dec) =>
      if MayResolve(s.pending, id, c) then s.(pending := s.pending - {id}, conns := s.conns[c := Delivering(id, dec)])
      else s
    case Deliver(c) =>
      var id, dec := s.conns[c].id, s.conns[c].dec;
      s.(requests := s.requests[id := Offered(s.requests[id], dec)], conns := s.conns[c := Reading])
  }

  function Run(es: seq<Event>): Option<System> {
    if es == [] then Some(System(None, map[], map[], []))
    else
      var before := Run(es[..|es| - 1]);
      var e := es[|es| - 1];
      if before.Some? && Enabled(before.value, e) then Some(Apply(before.value, e)) else None
  }

  // ---------------------------------------------------------------- what every step keeps

  predicate Live(s: System, c: ConnId) {
    c < |s.conns| && (s.conns[c].Reading? || s.conns[c].Delivering?)
  }

  predicate InDelivery(s: System, id: RequestId) {
    id in s.requests && s.requests[id].owner < |s.conns|
    && s.conns[s.requests[id].owner].Delivering? && s.conns[s.requests[id].owner].id == id
  }

  /** A request holds exactly one of: a place in `pending`, a decision on its way, a decision
      in its channel, or a result. */
  ghost predicate RequestInv(s: System, id: RequestId)
    requires id in s.requests
  {
    var r := s.requests[id];
    && r.dropped == 0
    && r.offered + (if id in s.pending then 1 else 0) + (if InDelivery(s, id) then 1 else 0) <= 1
    && |r.chan| <= r.offered
    && (r.result.None? ==> id in s.pending || InDelivery(s, id) || |r.chan| == 1)
    && (r.result.Some? && r.result.value.Ok? ==> r.offered == 1)
    && (r.finished ==> r.result.Some? && id !in s.pending)
  }

  ghost predicate Inv(s: System) {
    && (s.consumer.Some? ==> Live(s, s.consumer.value))
    && (forall id <- s.pending :: id in s.requests && s.requests[id].owner == s.pending[id] && Live(s, s.pending[id]))
    && (forall id <- s.requests :: s.requests[id].owner < |s.conns| && !s.conns[s.requests[id].owner].Acked?)
    && (forall c: ConnId :: c < |s.conns| && s.conns[c].Delivering? ==>
          s.conns[c].id in s.requests && s.requests[s.conns[c].id].owner == c && s.conns[c].id !in s.pending)
    && (forall id <- s.requests :: RequestInv(s, id))
  }

  lemma DemoteKeepsInv(s: System, c: ConnId)
    requires Inv(s) && Enabled(s, Demote(c))
    ensures Inv(Apply(s, Demote(c)))
  {
    var t := Apply(s, Demote(c));
    forall id | id in t.requests ensures RequestInv(t, id) {
      assert RequestInv(s, id);
      assert InDelivery(t, id) <==> InDelivery(s, id);
    }
  }

  lemma {:induction false} AnswerKeepsInv(s: System, c: ConnId, id: RequestId, dec: Decision)
    requires Inv(s) && Enabled(s, Answer(c, id, dec))
    ensures Inv(Apply(s, Answer(c, id, dec)))
  {
    if MayResolve(s.pending, id, c) { TakenKeepsInv(s, c, id, dec); }
  }

  lemma TakenKeepsInv(s: System, c: ConnId, id: RequestId, dec: Decision)
    requires Inv(s) && Enabled(s, Answer(c, id, dec)) && MayResolve(s.pending, id, c)
    ensures Inv(Apply(s, Answer(c, id, dec)))
  {
    var t := Apply(s, Answer(c, id, dec));
    assert s.requests[id].owner == c && InDelivery(t, id) && !InDelivery(s, id);
    forall i | i in t.requests ensures RequestInv(t, i) {
      assert RequestInv(s, i);
      if i != id { assert InDelivery(t, i) <==> InDelivery(s, i); }
    }
  }

  lemma DeliverKeepsInv(s: System, c: ConnId)
    requires Inv(s) && Enabled(s, Deliver(c))
    ensures Inv(Apply(s, Deliver(c)))
  {
    var t := Apply(s, Deliver(c));
    assert InDelivery(s, s.conns[c].id);
    forall id | id in t.requests ensures RequestInv(t, id) {
      assert RequestInv(s, id);
      if id != s.conns[c].id { assert InDelivery(t, id) <==> InDelivery(s, id); }
    }
  }

  lemma ConnStepKeepsInv(s: System, e: Event)
    requires Inv(s) && Enabled(s, e) && (e.Accept? || e.Promote?)
    ensures Inv(Apply(s, e))
  {
    var t := Apply(s, e);
    forall id | id in t.requests ensures RequestInv(t, id) {
      assert RequestInv(s, id);
      assert InDelivery(t, id) <==> InDelivery(s, id);
    }
  }

  /** Steps of one request leave every other request, and every connection, alone. */
  lemma BeginKeepsInv(s: System, id: RequestId)
    requires Inv(s) && Enabled(s, Begin(id))
    ensures Inv(Apply(s, Begin(id)))
  {
    var t := Apply(s, Begin(id));
    forall i | i in t.requests ensures RequestInv(t, i) {
      if i in s.requests {
        assert RequestInv(s, i);
        assert InDelivery(t, i) <==> InDelivery(s, i);
      } else {
        assert !InDelivery(t, i);
      }
    }
  }

  lemma FinishKeepsInv(s: System, id: RequestId)
    requires Inv(s) && Enabled(s, Finish(id))
    ensures Inv(Apply(s, Finish(id)))
  {
    var t := Apply(s, Finish(id));
    forall i | i in t.requests ensures RequestInv(t, i) {
      assert RequestInv(s, i);
      assert InDelivery(t, i) <==> InDelivery(s, i);
    }
  }

  lemma UpdateKeepsInv(s: System, id: RequestId, r: Request)
    requires Inv(s) && id in s.requests
    requires var q := s.requests[id];
      && r.owner == q.owner && r.dropped == q.dropped && r.offered == q.offered
      && q.result.None? && !r.finished && |r.chan| <= |q.chan|
      && (r.result.Some? && r.result.value.Ok? ==> q.chan != [])
      && (r.result.None? ==> r.chan == q.chan)
    ensures Inv(s.(requests := s.requests[id := r]))
  {
    var t := s.(requests := s.requests[id := r]);
    forall i | i in t.requests ensures RequestInv(t, i) {
      assert RequestInv(s, i);
      assert InDelivery(t, i) <==> InDelivery(s, i);
    }
  }

  lemma {:induction false} ProgressKeepsInv(s: System, e: Event)
    requires Inv(s) && Enabled(s, e) && (e.SendRequest? || e.Receive? || e.GiveUp?)
    ensures Inv(Apply(s, e))
  {
    assert RequestInv(s, e.id);
    UpdateKeepsInv(s, e.id, Apply(s, e).requests[e.id]);
  }

  lemma {:induction false} StepKeepsInv(s: System, e: Event)
    requires Inv(s) && Enabled(s, e)
    ensures Inv(Apply(s, e))
  {
    match e
    case Demote(c) => DemoteKeepsInv(s, c);
    case Answer(c, id, dec) => AnswerKeepsInv(s, c, id, dec);
    case Deliver(c) => DeliverKeepsInv(s, c);
    case Accept => ConnStepKeepsInv(s, e);
    case Promote(_) => ConnStepKeepsInv(s, e);
    case Begin(id) => BeginKeepsInv(s, id);
    case Finish(id) => FinishKeepsInv(s, id);
    case _ => ProgressKeepsInv(s, e);
  }

  lemma {:induction false} RunKeepsInv(es: seq<Event>)
    requires Run(es).Some?
    ensures Inv(Run(es).value)
  {
    if es != [] {
      RunKeepsInv(es[..|es| - 1]);
      StepKeepsInv(Run(es[..|es| - 1]).value, es[|es| - 1]);
    }
  }

  /** In every interleaving each request's channel is offered at most one decision, so no
      `default` arm is ever taken; and no caller is stranded: until it has a result, its
      request is pending with a live owner, or its decision is on the way or in its channel. */
  lemma {:induction false} OneDecisionEach(es: seq<Event>)
    requires Run(es).Some?
    ensures var s := Run(es).value;
      forall id <- s.requests ::
        && s.requests[id].dropped == 0 && s.requests[id].offered <= 1
        && (s.requests[id].result.None? ==>
              (id in s.pending && Live(s, s.pending[id])) || InDelivery(s, id) || |s.requests[id].chan| == 1)
  {
    RunKeepsInv(es);
    forall id | id in Run(es).value.requests
      ensures RequestInv(Run(es).value, id)
    {
    }
  }

  // ---------------------------------------------------------------- the active consumer

  function LastPromoted(es: seq<Event>): Option<ConnId> {
    if es == [] then None
    else if es[|es| - 1].Promote? then Some(es[|es| - 1].c)
    else LastPromoted(es[..|es| - 1])
  }

  /** What one step does to one connection's life. */
  lemma ConnStep(s: System, e: Event, c: ConnId)
    requires Inv(s) && Enabled(s, e)
    ensures var t := Apply(s, e);
      && (c < |t.conns| && t.conns[c].Gone? <==> e == Demote(c) || (c < |s.conns| && s.conns[c].Gone?))
      && (c < |t.conns| && !t.conns[c].Acked? <==> e == Promote(c) || (c < |s.conns| && !s.conns[c].Acked?))
  {
  }

  lemma {:induction false} ConnHistory(es: seq<Event>, c: ConnId)
    requires Run(es).Some?
    ensures var s := Run(es).value;
      && (Demote(c) in es <==> c < |s.conns| && s.conns[c].Gone?)
      && (Promote(c) in es <==> c < |s.conns| && !s.conns[c].Acked?)
  {
    if es != [] {
      var front, e := es[..|es| - 1], es[|es| - 1];
      ConnHistory(front, c);
      RunKeepsInv(front);
      ConnStep(Run(front).value, e, c);
      assert es == front + [e];
    }
  }

  /** Last writer wins: the consumer is the most recently promoted connection, or none once
      that one is gone. */
  lemma {:induction false} ConsumerIsLastPromoted(es: seq<Event>)
    requires Run(es).Some?
    ensures Run(es).value.consumer ==
            (var last := LastPromoted(es); if last.Some? && Demote(last.value) in es then None else last)
    ensures LastPromoted(es).Some? ==> Promote(LastPromoted(es).value) in es
  {
    if es != [] {
      var front, e := es[..|es| - 1], es[|es| - 1];
      assert es == front + [e];
      ConsumerIsLastPromoted(front);
      var last := LastPromoted(es);
      if last.Some? {
        ConnHistory(front, last.value);
        ConnHistory(es, last.value);
      }
      if e.Demote? { ConnHistory(front, e.c); }
    }
  }

  /** Once `c` has disconnected, no request is pending on it, then or ever again; and a
      request still waiting for it already has its answer in its channel. */
  lemma NothingOwnedAfterDemote(es: seq<Event>, c: ConnId)
    requires Run(es).Some? && Demote(c) in es
    ensures var s := Run(es).value;
      && (forall id <- s.pending :: s.pending[id] != c)
      && (forall id <- s.requests :: s.requests[id].owner == c && s.requests[id].result.None? ==>
           |s.requests[id].chan| == 1)
  {
    ConnHistory(es, c);
    RunKeepsInv(es);
    var s := Run(es).value;
    forall id | id in s.requests && s.requests[id].owner == c && s.requests[id].result.None?
      ensures |s.requests[id].chan| == 1
    {
      assert RequestInv(s, id);
    }
  }

  // ---------------------------------------------------------------- who approved

  predicate PendingOn(s: System, id: RequestId, owner: ConnId) {
    id in s.pending && s.pending[id] == owner
  }

  /** The owner answered `dec` for this id while the request was pending on it. */
  ghost predicate AnsweredAt(es: seq<Event>, i: nat, id: RequestId, owner: ConnId, dec: Decision) {
    && i < |es| && es[i] == Answer(owner, id, dec)
    && Run(es[..i]).Some? && PendingOn(Run(es[..i]).value, id, owner)
  }

  ghost predicate Answered(es: seq<Event>, id: RequestId, owner: ConnId, dec: Decision) {
    exists i: nat :: AnsweredAt(es, i, id, owner, dec)
  }

  /** Every decision anywhere in the system is the fixed denial or the owner's own answer. */
  ghost predicate Sourced(es: seq<Event>, s: System) {
    && (forall c: ConnId :: c < |s.conns| && s.conns[c].Delivering? ==> Answered(es, s.conns[c].id, c, s.conns[c].dec))
    && (forall id <- s.requests ::
          && (forall d <- s.requests[id].chan :: d == DENIED || Answered(es, id, s.requests[id].owner, d))
          && (s.requests[id].result.Some? && s.requests[id].result.value.Ok? ==>
                var d := s.requests[id].result.value.value;
                d == DENIED || Answered(es, id, s.requests[id].owner, d)))
  }

  lemma AnsweredExtends(front: seq<Event>, es: seq<Event>, id: RequestId, owner: ConnId, dec: Decision)
    requires front <= es && Answered(front, id, owner, dec)
    ensures Answered(es, id, owner, dec)
  {
    var i: nat :| AnsweredAt(front, i, id, owner, dec);
    assert es[..i] == front[..i];
    assert AnsweredAt(es, i, id, owner, dec);
  }

  lemma SourcedExtends(front: seq<Event>, es: seq<Event>, s: System)
    requires front <= es && Sourced(front, s)
    ensures Sourced(es, s)
  {
    forall id, owner, dec | Answered(front, id, owner, dec) ensures Answered(es, id, owner, dec) {
      AnsweredExtends(front, es, id, owner, dec);
    }
  }

  lemma StepIsSourced(es: seq<Event>, s: System, e: Event)
    requires Inv(s) && Sourced(es, s) && Enabled(s, e)
    requires e.Answer? && MayResolve(s.pending, e.id, e.c) ==> Answered(es, e.id, e.c, e.dec)
    ensures Sourced(es, Apply(s, e))
  {
    var t := Apply(s, e);
    forall id | id in t.requests
      ensures forall d <- t.requests[id].chan :: d == DENIED || Answered(es, id, t.requests[id].owner, d)
      ensures t.requests[id].result.Some? && t.requests[id].result.value.Ok? ==>
                t.requests[id].result.value.value == DENIED ||
                    Answered(es, id, t.requests[id].owner, t.requests[id].result.value.value)
    {
      if id in s.requests && e == Receive(id) {
        assert s.requests[id].chan[0] in s.requests[id].chan;
      }
    }
  }

  lemma {:induction false} RunIsSourced(es: seq<Event>)
    requires Run(es).Some?
    ensures Sourced(es, Run(es).value)
  {
    if es != [] {
      var front, e := es[..|es| - 1], es[|es| - 1];
      var s := Run(front).value;
      RunIsSourced(front);
      RunKeepsInv(front);
      SourcedExtends(front, es, s);
      if e.Answer? && MayResolve(s.pending, e.id, e.c) {
        assert es[..|front|] == front;
        assert AnsweredAt(es, |front|, e.id, e.c, e.dec);
      }
      StepIsSourced(es, s, e);
    }
  }

  /** An approval is never made up: when RequestApproval returns an approving decision, the
      connection the request was sent to answered exactly that decision for that id while it
      was pending. Timeouts, disconnects and other connections only ever deny. */
  lemma ApprovalCameFromOwner(es: seq<Event>, id: RequestId, dec: Decision)
    requires Run(es).Some? && id in Run(es).value.requests
    requires Run(es).value.requests[id].result == Some(Ok(dec)) && dec.approved
    ensures Answered(es, id, Run(es).value.requests[id].owner, dec)
  {
    RunIsSourced(es);
  }

  // ---------------------------------------------------------------- what a decision does

  /** The request was decided this way: nothing else can reach its caller any more. */
  predicate Decided(s: System, id: RequestId, dec: Decision) {
    && id in s.requests && id !in s.pending
    && (InDelivery(s, id) ==> s.conns[s.requests[id].owner].dec == dec)
    && (forall d <- s.requests[id].chan :: d == dec)
    && (s.requests[id].result.Some? && s.requests[id].result.value.Ok? ==> s.requests[id].result.value.value == dec)
  }

  lemma {:induction false} StepKeepsDecided(s: System, e: Event, id: RequestId, dec: Decision)
    requires Inv(s) && Enabled(s, e) && Decided(s, id, dec)
    ensures Decided(Apply(s, e), id, dec)
  {
    if e == Receive(id) { assert s.requests[id].chan[0] in s.requests[id].chan; }
    if e.Deliver? && s.conns[e.c].id == id { assert InDelivery(s, id); }
  }

  lemma {:induction false} DecidedStays(es: seq<Event>, i: nat, id: RequestId, dec: Decision)
    requires Run(es).Some? && i <= |es| && Run(es[..i]).Some? && Decided(Run(es[..i]).value, id, dec)
    ensures Decided(Run(es).value, id, dec)
  {
    if i < |es| {
      var front := es[..|es| - 1];
      assert front[..i] == es[..i];
      DecidedStays(front, i, id, dec);
      RunKeepsInv(front);
      StepKeepsDecided(Run(front).value, es[|es| - 1], id, dec);
    } else {
      assert es[..i] == es;
    }
  }

  lemma {:induction false} PrefixRuns(es: seq<Event>, i: nat)
    requires Run(es).Some? && i <= |es|
    ensures Run(es[..i]).Some?
  {
    if i < |es| {
      assert es[..|es| - 1][..i] == es[..i];
      PrefixRuns(es[..|es| - 1], i);
    } else {
      assert es[..i] == es;
    }
  }

  /** `dec` is what reaches the caller of `id`, unless it gives up first: it has it, or it is in
      its channel, or the owner's goroutine is about to put it there. */
  predicate Reaches(s: System, id: RequestId, dec: Decision) {
    && id in s.requests
    && match s.requests[id].result
       case Some(Ok(d)) => d == dec
       case Some(Err(_)) => true
       case None =>
         || s.requests[id].chan == [dec]
         || (InDelivery(s, id) && s.conns[s.requests[id].owner].dec == dec)
  }

  lemma {:induction false} DecidedReaches(s: System, id: RequestId, dec: Decision)
    requires Inv(s) && Decided(s, id, dec)
    ensures Reaches(s, id, dec)
  {
    assert RequestInv(s, id);
    if s.requests[id].result.None? && !InDelivery(s, id) {
      assert s.requests[id].chan[0] in s.requests[id].chan;
    }
  }

  /** The first event that decides a pending request is the one whose decision its caller gets:
      the answer of its owner, exactly as sent, or the denial when its owner disconnects. */
  lemma {:induction false} FirstDecisionReaches(es: seq<Event>, i: nat, id: RequestId, owner: ConnId, dec: Decision)
    requires Run(es).Some? && i < |es| && Run(es[..i]).Some? && PendingOn(Run(es[..i]).value, id, owner)
    requires es[i] == Answer(owner, id, dec) || (es[i] == Demote(owner) && dec == Decision(false, "", "", ""))
    ensures Reaches(Run(es).value, id, dec)
  {
    var before, upto := es[..i], es[..i + 1];
    assert upto[..|upto| - 1] == before && upto[|upto| - 1] == es[i];
    PrefixRuns(es, i + 1);
    RunKeepsInv(before);
    RunKeepsInv(es);
    DecidedNow(Run(before).value, es[i], id, owner, dec);
    DecidedStays(es, i + 1, id, dec);
    DecidedReaches(Run(es).value, id, dec);
  }

  lemma {:induction false} DecidedNow(s: System, e: Event, id: RequestId, owner: ConnId, dec: Decision)
    requires Inv(s) && Enabled(s, e) && PendingOn(s, id, owner)
    requires e == Answer(owner, id, dec) || (e == Demote(owner) && dec == Decision(false, "", "", ""))
    ensures Decided(Apply(s, e), id, dec)
  {
    assert RequestInv(s, id);
  }

  /** A step other than these two, and a request pending on someone else, leave its channel
      alone. */
  lemma {:induction false} OthersAreLeftAlone(s: System, e: Event, id: RequestId, owner: ConnId)
    requires Inv(s) && Enabled(s, e) && PendingOn(s, id, owner)
    requires e.Demote? || e.Answer? || e.Deliver?
    requires e != Demote(owner) && !(e.Answer? && e.id == id && e.c == owner)
    ensures PendingOn(Apply(s, e), id, owner) && Apply(s, e).requests[id] == s.requests[id]
  {
    assert RequestInv(s, id);
  }

  /** A request whose sending failed fails with that error, and one that was sent goes on waiting;
      either way it stays pending on the same connection until its call ends, and then no more. */
  lemma SendingDecidesFailure(s: System, id: RequestId, ok: bool)
    requires Inv(s) && Enabled(s, SendRequest(id, ok))
    ensures var t := Apply(s, SendRequest(id, ok));
            && t.requests[id].result == (if ok then None else Some(Err(SendFailed)))
            && t.pending == s.pending && (ok ==> !Enabled(t, Finish(id)))
            && (!ok ==> Enabled(t, Finish(id)) && id !in Apply(t, Finish(id)).pending)
  {
  }

  // ---------------------------------------------------------------- what can happen

  /** Which steps a run can go on with, in terms of its state: connections come at any time and
      are promoted once, after their handshake; while one reads its frames it may answer or
      leave; a request may start under any new id, is sent once, waits until it has a decision
      or gives up, and ends once it has a result. */
  lemma {:induction false} RunGoesOn(es: seq<Event>, e: Event)
    requires Run(es).Some?
    ensures var s := Run(es).value;
            Run(es + [e]).Some? <==>
              match e
              case Accept => true
              case Promote(c) => c < |s.conns| && s.conns[c] == Acked
              case Demote(c) => c < |s.conns| && s.conns[c] == Reading
              case Answer(c, _, _) => c < |s.conns| && s.conns[c] == Reading
              case Deliver(c) => c < |s.conns| && s.conns[c].Delivering?
              case Begin(id) => id !in s.requests
              case SendRequest(id, _) => id in s.requests && !s.requests[id].sent && s.requests[id].result == None
              case Receive(id) =>
                id in s.requests && s.requests[id].sent && s.requests[id].result == None && |s.requests[id].chan| > 0
              case GiveUp(id, why) =>
                id in s.requests && s.requests[id].sent && s.requests[id].result == None && why != SendFailed
              case Finish(id) => id in s.requests && s.requests[id].result != None && !s.requests[id].finished
  {
    assert (es + [e])[..|es|] == es;
    RunKeepsInv(es);
  }

  /** No offer ever meets a full channel, so no `default` arm is ever taken. */
  lemma {:induction false} OffersMeetEmptyChannels(es: seq<Event>, e: Event, id: RequestId)
    requires Run(es + [e]).Some? && Run(es).Some? && id in Run(es).value.requests
    requires var s := Run(es).value;
             || (e.Deliver? && s.conns[e.c].id == id)
             || (e.Demote? && PendingOn(s, id, e.c))
    ensures Run(es).value.requests[id].chan == []
  {
    RunGoesOn(es, e);
    RunKeepsInv(es);
    var s := Run(es).value;
    assert RequestInv(s, id);
    if e.Deliver? { assert InDelivery(s, id); }
  }

  /** What the steps of a request do for its caller: a decision in the channel is taken out and
      becomes its result, giving up becomes its error, and at its end it is no longer pending. */
  lemma RequestSteps(s: System, id: RequestId, why: Failure)
    requires Inv(s)
    ensures Enabled(s, Receive(id)) ==>
              var t := Apply(s, Receive(id));
              && t.requests[id].result == Some(Ok(s.requests[id].chan[0])) && t.requests[id].chan == []
              && t.pending == s.pending
    ensures Enabled(s, GiveUp(id, why)) ==>
              var t := Apply(s, GiveUp(id, why));
              && t.requests[id].result == Some(Err(why)) && t.requests[id].chan == s.requests[id].chan
              && t.pending == s.pending
    ensures Enabled(s, Finish(id)) ==>
              var t := Apply(s, Finish(id));
              && t.requests[id].finished && t.requests[id].result == s.requests[id].result && id !in t.pending
              && forall other <- s.pending :: other != id ==> other in t.pending && t.pending[other] == s.pending[other]
    ensures Enabled(s, SendRequest(id, true)) ==> Apply(s, SendRequest(id, true)).requests[id].sent
  {
  }

  /** A request goes to whoever is the consumer when it begins; without one it never begins. And
      a new connection starts out with its handshake done, as nobody's consumer. */
  lemma BeginGoesToConsumer(s: System, id: RequestId)
    requires Inv(s) && Enabled(s, Begin(id))
    ensures var t := Apply(s, Begin(id));
            if s.consumer.None? then t == s
            else
              && PendingOn(t, id, s.consumer.value) && t.requests[id].owner == s.consumer.value
              && t.requests[id].result.None? && t.requests[id].chan == [] && t.consumer == s.consumer
              && forall other <- s.requests :: other in t.requests && t.requests[other] == s.requests[other]
    ensures Apply(s, Accept).conns == s.conns + [Acked] && Apply(s, Accept).consumer == s.consumer
  {
  }
}
