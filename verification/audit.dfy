/** The audit fan-out of `cmd/shed-host-agent/audit.go`: bounded channels that drop when
    full, so a slow subscriber never stalls a logging operation. */
module Audit {
  import opened Basics

  /** One subscriber's channel. */
  datatype Chan<T> = Chan(cap: nat, queue: seq<T>, closed: bool)

  /** What becomes of an entry offered to it: it waits in the queue, it went straight to a
      receiver that was waiting, or it is lost. */
  datatype Fate = Queued | HandedOver | Dropped

  /** A non-blocking send: room in the buffer, or a receiver already waiting on an empty
      channel (the only way through an unbuffered one); otherwise the entry is dropped. */
  function Offer<T>(c: Chan<T>, x: T, receiverWaiting: bool): (Chan<T>, Fate) {
    if |c.queue| < c.cap then (c.(queue := c.queue + [x]), Queued)
    else if c.queue == [] && receiverWaiting then (c, HandedOver)
    else (c, Dropped)
  }

  function Take<T>(c: Chan<T>): Chan<T>
    requires c.queue != []
  {
    c.(queue := c.queue[1..])
  }

  // ---------------------------------------------------------------- the object

  class Channel<T> {
    const cap: nat
    var queue: seq<T>
    var closed: bool

    constructor (cap: nat)
      ensures View() == Chan(cap, [], false)
    {
      this.cap := cap;
      queue, closed := [], false;
    }

    function View(): Chan<T>
      reads this
    {
      Chan(cap, queue, closed)
    }

    /** Sending on a closed channel would panic. */
    method TrySend(x: T, receiverWaiting: bool) returns (fate: Fate)
      requires !closed
      modifies this`queue
      ensures (View(), fate) == Offer(old(View()), x, receiverWaiting)
      ensures |old(queue)| < cap ==> queue == old(queue) + [x] && fate == Queued
      ensures |old(queue)| >= cap ==> queue == old(queue)
      ensures |old(queue)| >= cap ==> fate == if old(queue) == [] && receiverWaiting then HandedOver else Dropped
    {
      if |queue| < cap {
        queue := queue + [x];
        return Queued;
      } else if queue == [] && receiverWaiting {
        return HandedOver;
      }
      return Dropped;
    }

    method Receive() returns (x: T)
      requires queue != []
      modifies this`queue
      ensures old(queue) == [x] + queue
    {
      x := queue[0];
      queue := queue[1..];
    }

    /** Closing twice would panic. */
    method Close()
      requires !closed
      modifies this`closed
      ensures closed
    {
      closed := true;
    }
  }

  ghost predicate Distinct<T>(subs: map<nat, Channel<T>>) {
    forall i <- subs, j <- subs :: i != j ==> subs[i] != subs[j]
  }

  ghost function ChannelsOf<T>(subs: map<nat, Channel<T>>): set<Channel<T>> {
    set id | id in subs :: subs[id]
  }

  /** The loop of publish: every subscriber is offered the entry once, in any order. */
  method Publish<T>(subs: map<nat, Channel<T>>, entry: T, waiting: set<nat>) returns (fates: map<nat, Fate>)
    requires Distinct(subs) && forall id <- subs :: !subs[id].closed
    modifies ChannelsOf(subs)
    ensures fates.Keys == subs.Keys
    ensures forall id <- subs :: (subs[id].View(), fates[id]) == Offer(old(subs[id].View()), entry, id in waiting)
    ensures forall id <- subs :: |old(subs[id].queue)| < subs[id].cap ==>
              subs[id].queue == old(subs[id].queue) + [entry]
  {
    fates := map[];
    var todo := subs.Keys;
    while todo != {}
      invariant todo <= subs.Keys && fates.Keys == subs.Keys - todo
      invariant forall id <- todo :: subs[id].View() == old(subs[id].View())
      invariant forall id <- fates :: (subs[id].View(), fates[id]) == Offer(old(subs[id].View()), entry, id in waiting)
      decreases todo
    {
      var id :| id in todo;
      todo := todo - {id};
      var fate := subs[id].TrySend(entry, id in waiting);
      fates := fates[id := fate];
    }
    forall id | id in subs && |old(subs[id].queue)| < subs[id].cap
      ensures subs[id].queue == old(subs[id].queue) + [entry]
    {
      assert subs[id].View().queue == old(subs[id].View()).queue + [entry];
    }
  }

  class AuditLogger<T> {
    /** The durable record; None when no file is open. */
    var file: Option<seq<T>>
    var subs: map<nat, Channel<T>>
    var nextSub: nat

    /** Live channels are distinct and open, so a send never meets a closed one. */
    ghost predicate Valid()
      reads this, ChannelsOf(subs)
    {
      && Distinct(subs)
      && (forall id <- subs :: id < nextSub && !subs[id].closed)
    }

    constructor (file: Option<seq<T>>)
      ensures Valid() && subs == map[] && nextSub == 0 && this.file == file
    {
      this.file, subs, nextSub := file, map[], 0;
    }

    /** Appends to the file, if one is open and the write succeeds, and in any case publishes. */
    method LogEntry(entry: T, written: bool, waiting: set<nat>) returns (fates: map<nat, Fate>)
      requires Valid()
      modifies this`file, ChannelsOf(subs)
      ensures Valid()
      ensures file == if old(file).Some? && written then Some(old(file).value + [entry]) else old(file)
      ensures fates.Keys == subs.Keys
      ensures forall id <- subs :: (subs[id].View(), fates[id]) == Offer(old(subs[id].View()), entry, id in waiting)
      ensures forall id <- subs :: |old(subs[id].queue)| < subs[id].cap ==>
                subs[id].queue == old(subs[id].queue) + [entry]
    {
      if file.Some? && written { file := Some(file.value + [entry]); }
      fates := Publish(subs, entry, waiting);
      assert forall id <- subs :: !subs[id].View().closed;
    }

    method Subscribe(buf: nat) returns (ch: Channel<T>, id: nat)
      requires Valid()
      modifies this`subs, this`nextSub
      ensures Valid() && fresh(ch) && ch.View() == Chan(buf, [], false)
      ensures id == old(nextSub) && nextSub == id + 1 && subs == old(subs)[id := ch]
    {
      ch := new Channel(buf);
      id := nextSub;
      nextSub := nextSub + 1;
      subs := subs[id := ch];
    }

    /** The closure Subscribe returns; calling it again does nothing. */
    method Unsubscribe(id: nat)
      requires Valid()
      modifies this`subs, ChannelsOf(subs)
      ensures Valid()
      ensures subs == old(subs) - {id}
      ensures id in old(subs) ==> old(subs)[id].View() == old(subs[id].View()).(closed := true)
      ensures forall other <- subs :: subs[other].View() == old(subs[other].View())
    {
      if id in subs {
        var c := subs[id];
        subs := subs - {id};
        c.Close();
      }
    }
  }

  // ---------------------------------------------------------------- runs

  /** A subscriber in a run: entries are numbered in log order; `since` is how many had been
      published when it subscribed, `until` when it unsubscribed. `delivered` are the entries its
      receiver got, `dropped` those it lost. */
  datatype Sub = Sub(
    since: nat, until: Option<nat>, chan: Chan<nat>, delivered: seq<nat>, dropped: seq<nat>, closes: nat)

  /** `live` are the ids in the map; `published` counts the log. */
  datatype Hub = Hub(published: nat, live: set<nat>, subs: seq<Sub>)

  datatype Event = Log(waiting: set<nat>) | Subscribe(buf: nat) | Unsubscribe(id: nat) | Receive(id: nat)

  predicate Enabled(h: Hub, e: Event) {
    match e
    case Unsubscribe(id) => id < |h.subs|
    case Receive(id) => id < |h.subs| && h.subs[id].chan.queue != []
    case _ => true
  }

  function OfferTo(s: Sub, n: nat, waiting: bool): Sub {
    var (chan, fate) := Offer(s.chan, n, waiting);
    s.(chan := chan,
       delivered := if fate.HandedOver? then s.delivered + [n] else s.delivered,
       dropped := if fate.Dropped? then s.dropped + [n] else s.dropped)
  }

  function ReceiveFrom(s: Sub): Sub
    requires s.chan.queue != []
  {
    s.(chan := Take(s.chan), delivered := s.delivered + [s.chan.queue[0]])
  }

  function Apply(h: Hub, e: Event): Hub
    requires Enabled(h, e)
  {
    match e
    case Log(waiting) =>
      Hub(h.published + 1, h.live,
          seq(|h.subs|, i requires 0 <= i < |h.subs| =>
            if i in h.live then OfferTo(h.subs[i], h.published, i in waiting) else h.subs[i]))
    case Subscribe(buf) =>
      h.(live := h.live + {|h.subs|}, subs := h.subs + [Sub(h.published, None, Chan(buf, [], false), [], [], 0)])
    case Unsubscribe(id) =>
      if id in h.live then
        var s := h.subs[id];
        h.(live := h.live - {id},
           subs := h.subs[id := s.(until := Some(h.published), chan := s.chan.(closed := true),
                                 closes := s.closes + 1)])
      else h
    case Receive(id) => h.(subs := h.subs[id := ReceiveFrom(h.subs[id])])
  }

  function Run(es: seq<Event>): Option<Hub> {
    if es == [] then Some(Hub(0, {}, []))
    else
      var before := Run(es[..|es| - 1]);
      var e := es[|es| - 1];
      if before.Some? && Enabled(before.value, e) then Some(Apply(before.value, e)) else None
  }

  predicate Increasing(s: seq<nat>) { forall i, j :: 0 <= i < j < |s| ==> s[i] < s[j] }

  /** How often an entry number occurs among a subscriber's delivered, queued and dropped ones. */
  function Occurrences(s: Sub, x: nat): nat {
    multiset(s.delivered)[x] + multiset(s.chan.queue)[x] + multiset(s.dropped)[x]
  }

  function End(h: Hub, s: Sub): nat { if s.until.Some? then s.until.value else h.published }

  ghost predicate SubInv(h: Hub, i: nat)
    requires i < |h.subs|
  {
    var s := h.subs[i]; var c := s.chan;
    && s.since <= End(h, s) <= h.published
    && (i in h.live <==> s.until.None?) && (s.until.None? <==> !c.closed)
    && s.closes == (if i in h.live then 0 else 1)
    && |c.queue| <= c.cap
    && Increasing(s.delivered + c.queue)
    && (forall x <- s.delivered + c.queue :: x < End(h, s))
    && (forall x: nat :: Occurrences(s, x) == if s.since <= x < End(h, s) then 1 else 0)
  }

  ghost predicate Inv(h: Hub) {
    && (forall i <- h.live :: i < |h.subs|)
    && (forall i: nat :: i < |h.subs| ==> SubInv(h, i))
  }

  lemma MultisetAppend<T>(s: seq<T>, x: T)
    ensures multiset(s + [x]) == multiset(s) + multiset{x}
  {
  }

  lemma IncreasingAppend(s: seq<nat>, n: nat)
    requires Increasing(s) && forall x <- s :: x < n
    ensures Increasing(s + [n])
  {
    assert forall i :: 0 <= i < |s| ==> s[i] in s;
  }

  /** Offering the next entry number accounts for it once and keeps the order. */
  lemma OfferKeeps(s: Sub, n: nat, waiting: bool)
    requires Increasing(s.delivered + s.chan.queue) && |s.chan.queue| <= s.chan.cap
    requires forall x <- s.delivered + s.chan.queue :: x < n
    ensures var t := OfferTo(s, n, waiting);
      && t.chan.cap == s.chan.cap && t.chan.closed == s.chan.closed && |t.chan.queue| <= t.chan.cap
      && Increasing(t.delivered + t.chan.queue)
      && (forall x <- t.delivered + t.chan.queue :: x < n + 1)
      && (forall x: nat :: Occurrences(t, x) == Occurrences(s, x) + if x == n then 1 else 0)
  {
    var t := OfferTo(s, n, waiting);
    MultisetAppend(s.chan.queue, n);
    MultisetAppend(s.delivered, n);
    MultisetAppend(s.dropped, n);
    IncreasingAppend(s.delivered + s.chan.queue, n);
    if Offer(s.chan, n, waiting).1.Dropped? {
      assert t.delivered + t.chan.queue == s.delivered + s.chan.queue;
    } else {
      assert t.delivered + t.chan.queue == s.delivered + s.chan.queue + [n];
    }
  }

  lemma ReceiveKeeps(s: Sub)
    requires s.chan.queue != []
    ensures var t := ReceiveFrom(s);
      && t.delivered + t.chan.queue == s.delivered + s.chan.queue
      && forall x: nat :: Occurrences(t, x) == Occurrences(s, x)
  {
    var q := s.chan.queue;
    assert q == [q[0]] + q[1..];
    assert multiset(q) == multiset{q[0]} + multiset(q[1..]);
    MultisetAppend(s.delivered, q[0]);
  }

  lemma LogKeepsInv(h: Hub, waiting: set<nat>)
    requires Inv(h)
    ensures Inv(Apply(h, Log(waiting)))
  {
    var g := Apply(h, Log(waiting));
    forall i: nat | i < |g.subs| ensures SubInv(g, i) {
      assert SubInv(h, i);
      if i in h.live { OfferKeeps(h.subs[i], h.published, i in waiting); }
    }
  }

  lemma ReceiveKeepsInv(h: Hub, id: nat)
    requires Inv(h) && Enabled(h, Receive(id))
    ensures Inv(Apply(h, Receive(id)))
  {
    var g := Apply(h, Receive(id));
    forall i: nat | i < |g.subs| ensures SubInv(g, i) {
      assert SubInv(h, i);
      if i == id { ReceiveKeeps(h.subs[i]); }
    }
  }

  lemma UnsubscribeKeepsInv(h: Hub, id: nat)
    requires Inv(h) && Enabled(h, Unsubscribe(id))
    ensures Inv(Apply(h, Unsubscribe(id)))
  {
    var g := Apply(h, Unsubscribe(id));
    forall i: nat | i < |g.subs| ensures SubInv(g, i) {
      assert SubInv(h, i);
      assert forall x: nat :: Occurrences(g.subs[i], x) == Occurrences(h.subs[i], x);
    }
  }

  lemma SubscribeKeepsInv(h: Hub, buf: nat)
    requires Inv(h)
    ensures Inv(Apply(h, Subscribe(buf)))
  {
    var g := Apply(h, Subscribe(buf));
    forall i: nat | i < |g.subs| ensures SubInv(g, i) {
      if i < |h.subs| { assert SubInv(h, i); }
    }
  }

  lemma StepKeepsInv(h: Hub, e: Event)
    requires Inv(h) && Enabled(h, e)
    ensures Inv(Apply(h, e))
  {
    match e
    case Log(waiting) => LogKeepsInv(h, waiting);
    case Receive(id) => ReceiveKeepsInv(h, id);
    case Unsubscribe(id) => UnsubscribeKeepsInv(h, id);
    case Subscribe(buf) => SubscribeKeepsInv(h, buf);
  }

  lemma {:induction false} RunKeepsInv(es: seq<Event>)
    requires Run(es).Some?
    ensures Inv(Run(es).value)
  {
    if es != [] {
      RunKeepsInv(es[..|es| - 1]);
      StepKeepsInv(Run(es[..|es| - 1]).value, es[|es| - 1]);
    }
  }

  /** Conservation. For every subscriber in every run, each entry published while it was
      subscribed was delivered, is queued, or was dropped, exactly once, and it sees no other;
      what it receives, followed by what is queued, is in log order without repeats; the
      channel is closed exactly once, however often unsubscribe is called. */
  lemma EveryEntryAccountedFor(es: seq<Event>, i: nat)
    requires Run(es).Some? && i < |Run(es).value.subs|
    ensures var h := Run(es).value; var s := h.subs[i]; var c := s.chan;
      && (forall x: nat :: Occurrences(s, x) == if s.since <= x < End(h, s) then 1 else 0)
      && Increasing(s.delivered + c.queue)
      && |c.queue| <= c.cap
      && s.closes <= 1 && (Unsubscribe(i) in es ==> s.closes == 1)
  {
    RunKeepsInv(es);
    assert SubInv(Run(es).value, i);
    if Unsubscribe(i) in es { UnsubscribedIsNotLive(es, i); }
  }

  lemma {:induction false} UnsubscribedIsNotLive(es: seq<Event>, i: nat)
    requires Run(es).Some? && Unsubscribe(i) in es
    ensures i < |Run(es).value.subs| && i !in Run(es).value.live
  {
    var front, e := es[..|es| - 1], es[|es| - 1];
    assert es == front + [e];
    if Unsubscribe(i) in front { UnsubscribedIsNotLive(front, i); }
  }

  /** Publishing to a live subscriber with room in its buffer puts the entry at the end of its
      queue; without room the queue stays, and the entry goes to a receiver that waits on an
      empty channel, or else is dropped; and after it unsubscribed, nothing changes for it. */
  lemma PublishedIsQueued(es: seq<Event>, waiting: set<nat>, i: nat)
    requires Run(es).Some? && i < |Run(es).value.subs|
    ensures var h := Run(es).value;
      var s, t := h.subs[i], Apply(h, Log(waiting)).subs[i];
      var room := |s.chan.queue| < s.chan.cap;
      && (i in h.live && room ==>
            t.chan.queue == s.chan.queue + [h.published] && t.delivered == s.delivered && t.dropped == s.dropped)
      && (i in h.live && !room ==>
            && t.chan.queue == s.chan.queue
            && (if s.chan.queue == [] && i in waiting
                then t.delivered == s.delivered + [h.published] && t.dropped == s.dropped
                else t.delivered == s.delivered && t.dropped == s.dropped + [h.published]))
      && (Unsubscribe(i) in es ==> t == s)
  {
    if Unsubscribe(i) in es { UnsubscribedIsNotLive(es, i); }
  }

  /** An entry is dropped only when the subscriber's buffer is full and nobody is waiting on
      it; and after it unsubscribed, nothing is sent to it at all. */
  lemma DropOnlyWhenFull(es: seq<Event>, waiting: set<nat>, i: nat)
    requires Run(es).Some? && i < |Run(es).value.subs|
    ensures var h := Run(es).value;
      var s, t := h.subs[i], Apply(h, Log(waiting)).subs[i];
      && (t.dropped != s.dropped <==>
            i in h.live && |s.chan.queue| == s.chan.cap && !(s.chan.cap == 0 && i in waiting))
      && (Unsubscribe(i) in es ==> t == s)
  {
    RunKeepsInv(es);
    assert SubInv(Run(es).value, i);
    if Unsubscribe(i) in es { UnsubscribedIsNotLive(es, i); }
  }

  /** What an event itself hands to a subscriber's receiver: the head of the queue it takes, or an
      entry published while it waits on a live unbuffered channel. */
  function GotIn(h: Hub, e: Event, i: nat): seq<nat> {
    if i >= |h.subs| then []
    else if e == Receive(i) && h.subs[i].chan.queue != [] then [h.subs[i].chan.queue[0]]
    else if e.Log? && i in e.waiting && i in h.live && h.subs[i].chan.cap == 0 then [h.published]
    else []
  }

  function Got(es: seq<Event>, i: nat): seq<nat>
    requires Run(es).Some?
  {
    if es == [] then [] else Got(es[..|es| - 1], i) + GotIn(Run(es[..|es| - 1]).value, es[|es| - 1], i)
  }

  function DeliveredTo(h: Hub, i: nat): seq<nat> {
    if i < |h.subs| then h.subs[i].delivered else []
  }

  lemma DeliveredStep(h: Hub, e: Event, i: nat)
    requires Inv(h) && Enabled(h, e)
    ensures DeliveredTo(Apply(h, e), i) == DeliveredTo(h, i) + GotIn(h, e, i)
  {
    if i < |h.subs| { assert SubInv(h, i); }
  }

  /** Nothing counts as delivered but what a receiver really got. */
  lemma {:induction false} DeliveredIsWhatWasGot(es: seq<Event>, i: nat)
    requires Run(es).Some?
    ensures DeliveredTo(Run(es).value, i) == Got(es, i)
  {
    if es != [] {
      var front, e := es[..|es| - 1], es[|es| - 1];
      DeliveredIsWhatWasGot(front, i);
      RunKeepsInv(front);
      DeliveredStep(Run(front).value, e, i);
    }
  }

  /** Which steps a run can go on with: entries and subscribers come at any time, whoever ever
      subscribed can unsubscribe at any time, and what is queued can be received. */
  lemma {:induction false} RunGoesOn(es: seq<Event>, e: Event)
    requires Run(es).Some?
    requires e.Unsubscribe? ==> e.id < |Run(es).value.subs|
    ensures Run(es + [e]).Some? <==>
              (e.Receive? ==> e.id < |Run(es).value.subs| && |Run(es).value.subs[e.id].chan.queue| > 0)
  {
    assert (es + [e])[..|es|] == es;
  }

  lemma {:induction false} RunStarts()
    ensures Run([]) == Some(Hub(0, {}, []))
  {
  }
}
