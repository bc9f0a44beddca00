/** The server object of `cmd/shed-host-agent/desktop_server.go`: its fields and the critical
    sections that update them, each proved to compute the step of the interleaved models. */
module DesktopServers {
  import opened Basics
  import opened DesktopApprovals
  import opened DesktopFeed

  /** A decision channel: buffered, capacity one. */
  class DecisionChan {
    var buf: seq<Decision>

    constructor ()
      ensures buf == []
    {
      buf := [];
    }

    method TrySend(d: Decision)
      modifies this
      ensures buf == if old(buf) == [] then [d] else old(buf)
    {
      if |buf| < 1 {
        buf := buf + [d];
      }
    }
  }

  datatype PendingReq = PendingReq(ch: DecisionChan, owner: ConnId)

  ghost predicate DistinctChannels(m: map<RequestId, PendingReq>) {
    forall i <- m, j <- m :: i != j ==> m[i].ch != m[j].ch
  }

  ghost function ChannelsOf(m: map<RequestId, PendingReq>): set<DecisionChan> {
    set id | id in m :: m[id].ch
  }

  function Survivors(m: map<RequestId, PendingReq>, c: ConnId): map<RequestId, PendingReq> {
    map id | id in m && m[id].owner != c :: m[id]
  }

  /** On owners alone, the survivors are those of the interleaved model. */
  lemma SurvivorsAreNotOwned(m: map<RequestId, PendingReq>, c: ConnId)
    ensures (map id | id in Survivors(m, c) :: Survivors(m, c)[id].owner) ==
              NotOwnedBy(map id | id in m :: m[id].owner, c)
  {
  }

  function AfterDemote(owner: ConnId, c: ConnId, buf: seq<Decision>): seq<Decision> {
    if owner == c then Offer(buf, DENIED) else buf
  }

  /** On channels, the object does to each pending request what the interleaved model does. */
  lemma DemoteIsTheModels(s: System, c: ConnId, id: RequestId)
    requires Enabled(s, Demote(c)) && id in s.pending && id in s.requests
    ensures Apply(s, Demote(c)).requests[id].chan == AfterDemote(s.pending[id], c, s.requests[id].chan)
  {
  }

  /** The loop of demote over the pending requests. */
  method DenyOwned(was: map<RequestId, PendingReq>, c: ConnId) returns (rest: map<RequestId, PendingReq>)
    requires DistinctChannels(was)
    modifies ChannelsOf(was)
    ensures rest == Survivors(was, c)
    ensures forall id <- was ::
              was[id].ch.buf ==
                if was[id].owner == c && old(was[id].ch.buf) == [] then [Decision(false, "", "", "")]
                else old(was[id].ch.buf)
  {
    rest := was;
    var todo := was.Keys;
    while todo != {}
      invariant todo <= was.Keys
      invariant rest.Keys == set id | id in was && (id in todo || was[id].owner != c)
      invariant forall id <- rest :: rest[id] == was[id]
      invariant forall id <- was :: was[id].ch.buf ==
                  if id in todo then old(was[id].ch.buf) else AfterDemote(was[id].owner, c, old(was[id].ch.buf))
      decreases todo
    {
      var id :| id in todo;
      todo := todo - {id};
      if was[id].owner == c {
        was[id].ch.TrySend(DENIED);
        rest := rest - {id};
      }
    }
  }

  class DesktopServer<T> {
    var consumer: Option<ConnId>
    var pending: map<RequestId, PendingReq>
    var ring: seq<T>

    /** Every pending request has a channel of its own. */
    ghost predicate Valid()
      reads this
    {
      && DistinctChannels(pending)
      && |ring| <= RING_MAX
    }

    function Owners(): map<RequestId, ConnId>
      reads this
    {
      map id | id in pending :: pending[id].owner
    }

    constructor ()
      ensures Valid() && consumer == None && pending == map[] && ring == []
    {
      consumer, pending, ring := None, map[], [];
    }

    method Promote(c: ConnId) returns (superseded: Option<ConnId>)
      requires Valid()
      modifies this`consumer
      ensures Valid() && consumer == Some(c)
      ensures superseded == (if old(consumer) == Some(c) then None else old(consumer))
    {
      superseded := if consumer == Some(c) then None else consumer;
      consumer := Some(c);
    }

    /** Drops the consumer if it is `c`, and denies and removes every request `c` owns; other
        requests and their channels are untouched. */
    method Demote(c: ConnId)
      requires Valid()
      modifies this`consumer, this`pending, ChannelsOf(pending)
      ensures Valid()
      ensures consumer == if old(consumer) == Some(c) then None else old(consumer)
      ensures pending == map id | id in old(pending) && old(pending)[id].owner != c :: old(pending)[id]
      ensures forall id <- old(pending) ::
                old(pending)[id].ch.buf ==
                  if old(pending)[id].owner == c && old(pending[id].ch.buf) == [] then [Decision(false, "", "", "")]
                  else old(pending[id].ch.buf)
      ensures forall id <- old(pending) :: old(pending)[id].ch.buf ==
                AfterDemote(old(pending)[id].owner, c, old(pending[id].ch.buf))
    {
      if consumer == Some(c) { consumer := None; }
      var kept := DenyOwned(pending, c);
      pending := kept;
    }

    /** The locked section of resolve: the request leaves `pending` only for its owner. */
    method TakeForAnswer(id: RequestId, from: ConnId) returns (ch: DecisionChan?)
      requires Valid()
      modifies this`pending
      ensures Valid()
      ensures if id in old(pending) && old(pending)[id].owner == from
              then pending == old(pending) - {id} && ch == old(pending)[id].ch
              else pending == old(pending) && ch == null
    {
      ch := null;
      if id in pending && pending[id].owner == from {
        ch := pending[id].ch;
        pending := pending - {id};
      }
    }

    /** The locked section of RequestApproval: fails closed without a consumer. */
    method BeginRequest(id: RequestId) returns (ch: DecisionChan?)
      requires Valid() && id !in pending
      modifies this`pending
      ensures Valid()
      ensures if old(consumer).None? then ch == null && pending == old(pending)
              else fresh(ch) && ch.buf == [] && pending == old(pending)[id := PendingReq(ch, old(consumer).value)]
    {
      if consumer.None? { return null; }
      ch := new DecisionChan();
      pending := pending[id := PendingReq(ch, consumer.value)];
    }

    /** The deferred delete of RequestApproval. */
    method EndRequest(id: RequestId)
      requires Valid()
      modifies this`pending
      ensures Valid() && pending == old(pending) - {id}
    {
      pending := pending - {id};
    }

    /** The locked section of the forwarder; the event then goes to `to`, if any. */
    method ForwardAudit(ev: T) returns (to: Option<ConnId>)
      requires Valid()
      modifies this`ring
      ensures Valid() && ring == Push(old(ring), ev) && to == consumer
    {
      ring := ring + [ev];
      if |ring| > RING_MAX {
        ring := ring[|ring| - RING_MAX..];
      }
      to := consumer;
    }

    /** The snapshot a replay sends: the last `n` events of the ring, oldest first. */
    method ReplaySnapshot(n: int) returns (evs: seq<T>)
      requires Valid()
      ensures evs == Replayed(ring, n)
    {
      if n <= 0 { return []; }
      var start := 0;
      if |ring| > n { start := |ring| - n; }
      evs := ring[start..];
    }
  }
}
