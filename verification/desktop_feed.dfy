/** The audit feed of `cmd/shed-host-agent/desktop_server.go`: a bounded replay ring filled
    by the forwarder, live delivery to the active consumer, and one replay per connection. */
module DesktopFeed {
  import opened Basics
  import opened DesktopApprovals

  const RING_MAX: nat := 100

  /** The last `n` elements, or all of them. */
  function LastN<T>(s: seq<T>, n: nat): (r: seq<T>)
    ensures |r| == (if |s| > n then n else |s|)
  {
    if |s| > n then s[|s| - n..] else s
  }

  /** Append, then drop what exceeds the bound. */
  function Push<T>(ring: seq<T>, ev: T): seq<T> { LastN(ring + [ev], RING_MAX) }

  /** What a replay request of `n` events is sent: the last `n` of the ring, oldest first. */
  function Replayed<T>(ring: seq<T>, n: int): seq<T> {
    if n <= 0 then [] else LastN(ring, n)
  }

  // ---------------------------------------------------------------- the feed over time

  /** One connection's dealings with the feed. Events are numbered in forwarding order;
      `addressed` are the numbers of those sent to it, live or replayed. */
  datatype Link<T> = Link(
    promotedAt: nat, lostAt: Option<nat>, gone: bool,
    snapshot: Option<Snapshot<T>>, addressed: set<nat>)

  /** A replay: the number of events forwarded so far, what was taken from the ring, and whether
      the connection was still the consumer. */
  datatype Snapshot<T> = Snapshot(at: nat, events: seq<T>, asConsumer: bool)

  datatype Feed<T> = Feed(consumer: Option<ConnId>, ring: seq<T>, forwarded: seq<T>, links: map<ConnId, Link<T>>)

  datatype FeedEvent<T> = Joined(c: ConnId) | Left(c: ConnId) | Forward(ev: T) | Replay(c: ConnId, n: int)

  predicate FeedEnabled<T>(f: Feed<T>, e: FeedEvent<T>) {
    match e
    case Joined(c) => c !in f.links
    case Left(c) => c in f.links && !f.links[c].gone
    case Forward(_) => true
    case Replay(c, _) => c in f.links && !f.links[c].gone && f.links[c].snapshot.None?
  }

  /** The current consumer, if any, stops receiving live events now. */
  function Lose<T>(f: Feed<T>): map<ConnId, Link<T>> {
    if f.consumer.Some? && f.consumer.value in f.links
    then f.links[f.consumer.value := f.links[f.consumer.value].(lostAt := Some(|f.forwarded|))]
    else f.links
  }

  /** The numbers `lo`, `lo + 1`, ... up to `hi` excluded. */
  ghost function Range(lo: int, hi: int): set<nat> {
    set i: nat | i < hi && AtLeast(i, lo)
  }

  predicate AtLeast(i: nat, lo: int) { lo <= i }

  ghost function FeedStep<T>(f: Feed<T>, e: FeedEvent<T>): Feed<T>
    requires FeedEnabled(f, e)
  {
    match e
    case Joined(c) =>
      f.(consumer := Some(c), links := Lose(f)[c := Link(|f.forwarded|, None, false, None, {})])
    case Left(c) =>
      var links := if f.consumer == Some(c) then Lose(f) else f.links;
      f.(consumer := DemoteConsumer(f.consumer, c),
         links := if c in links then links[c := links[c].(gone := true)] else links)
    case Forward(ev) =>
      f.(ring := Push(f.ring, ev), forwarded := f.forwarded + [ev],
         links := if f.consumer.Some? && f.consumer.value in f.links
                  then var k := f.links[f.consumer.value];
                       f.links[f.consumer.value := k.(addressed := k.addressed + {|f.forwarded|})]
                  else f.links)
    case Replay(c, n) =>
      var events := Replayed(f.ring, n);
      var k := f.links[c];
      f.(links := f.links[c := k.(snapshot := Some(Snapshot(|f.forwarded|, events, f.consumer == Some(c))),
                                  addressed := k.addressed + Range(|f.forwarded| - |events|, |f.forwarded|))])
  }

  ghost function FeedRun<T>(es: seq<FeedEvent<T>>): Option<Feed<T>> {
    if es == [] then Some(Feed(None, [], [], map[]))
    else
      var before := FeedRun(es[..|es| - 1]);
      var e := es[|es| - 1];
      if before.Some? && FeedEnabled(before.value, e) then Some(FeedStep(before.value, e)) else None
  }

  /** One past the last event the connection receives live. */
  function LiveEnd<T>(f: Feed<T>, k: Link<T>): nat {
    if k.lostAt.Some? then k.lostAt.value else |f.forwarded|
  }

  /** The events of a snapshot are those that the numbers it stands for were given to. */
  ghost predicate AreNumbered<T>(forwarded: seq<T>, sn: Snapshot<T>) {
    |sn.events| <= sn.at <= |forwarded| && sn.events == forwarded[sn.at - |sn.events|..sn.at]
  }

  ghost predicate LinkInv<T>(f: Feed<T>, c: ConnId, k: Link<T>) {
    && k.promotedAt <= LiveEnd(f, k) <= |f.forwarded|
    && (k.lostAt.None? <==> f.consumer == Some(c))
    && (k.gone ==> k.lostAt.Some?)
    && (k.snapshot.Some? ==>
          && k.promotedAt <= k.snapshot.value.at <= |f.forwarded|
          && AreNumbered(f.forwarded, k.snapshot.value)
          && (if k.snapshot.value.asConsumer then k.snapshot.value.at <= LiveEnd(f, k)
              else k.lostAt.Some? && k.lostAt.value <= k.snapshot.value.at))
    && k.addressed == Range(k.promotedAt, LiveEnd(f, k)) +
                      (if k.snapshot.Some?
                       then Range(k.snapshot.value.at - |k.snapshot.value.events|, k.snapshot.value.at) else {})
  }

  ghost predicate FeedInv<T>(f: Feed<T>) {
    && f.ring == LastN(f.forwarded, RING_MAX)
    && (f.consumer.Some? ==> f.consumer.value in f.links)
    && forall c <- f.links :: LinkInv(f, c, f.links[c])
  }

  lemma RingKeepsLast<T>(forwarded: seq<T>, ev: T)
    ensures Push(LastN(forwarded, RING_MAX), ev) == LastN(forwarded + [ev], RING_MAX)
  {
  }

  /** The events a replay takes from the ring are the last forwarded ones. */
  lemma ReplayedAreLast<T>(forwarded: seq<T>, n: int)
    ensures var events := Replayed(LastN(forwarded, RING_MAX), n);
            |events| <= |forwarded| && events == forwarded[|forwarded| - |events|..]
  {
  }

  lemma AppendKeepsNumbers<T>(forwarded: seq<T>, ev: T, sn: Snapshot<T>)
    requires AreNumbered(forwarded, sn)
    ensures AreNumbered(forwarded + [ev], sn)
  {
  }

  lemma ForwardKeepsInv<T>(f: Feed<T>, ev: T)
    requires FeedInv(f)
    ensures FeedInv(FeedStep(f, Forward(ev)))
  {
    var g := FeedStep(f, Forward(ev));
    RingKeepsLast(f.forwarded, ev);
    forall c | c in g.links ensures LinkInv(g, c, g.links[c]) {
      assert LinkInv(f, c, f.links[c]);
      var k := f.links[c];
      if k.snapshot.Some? { AppendKeepsNumbers(f.forwarded, ev, k.snapshot.value); }
      if f.consumer == Some(c) {
        assert Range(k.promotedAt, |f.forwarded| + 1) == Range(k.promotedAt, |f.forwarded|) + {|f.forwarded|};
      }
    }
  }

  lemma JoinedKeepsInv<T>(f: Feed<T>, c: ConnId)
    requires FeedInv(f) && FeedEnabled(f, Joined(c))
    ensures FeedInv(FeedStep(f, Joined(c)))
  {
    var g := FeedStep(f, Joined(c));
    forall d | d in g.links ensures LinkInv(g, d, g.links[d]) {
      if d != c { assert LinkInv(f, d, f.links[d]); }
    }
  }

  lemma LeftKeepsInv<T>(f: Feed<T>, c: ConnId)
    requires FeedInv(f) && FeedEnabled(f, Left(c))
    ensures FeedInv(FeedStep(f, Left(c)))
  {
    var g := FeedStep(f, Left(c));
    forall d | d in g.links ensures LinkInv(g, d, g.links[d]) {
      assert LinkInv(f, d, f.links[d]);
    }
  }

  lemma ReplayKeepsInv<T>(f: Feed<T>, c: ConnId, n: int)
    requires FeedInv(f) && FeedEnabled(f, Replay(c, n))
    ensures FeedInv(FeedStep(f, Replay(c, n)))
  {
    var g := FeedStep(f, Replay(c, n));
    ReplayedAreLast(f.forwarded, n);
    forall d | d in g.links ensures LinkInv(g, d, g.links[d]) {
      assert LinkInv(f, d, f.links[d]);
    }
  }

  lemma FeedStepKeepsInv<T>(f: Feed<T>, e: FeedEvent<T>)
    requires FeedInv(f) && FeedEnabled(f, e)
    ensures FeedInv(FeedStep(f, e))
  {
    match e
    case Forward(ev) => ForwardKeepsInv(f, ev);
    case Joined(c) => JoinedKeepsInv(f, c);
    case Left(c) => LeftKeepsInv(f, c);
    case Replay(c, n) => ReplayKeepsInv(f, c, n);
  }

  lemma {:induction false} FeedRunKeepsInv<T>(es: seq<FeedEvent<T>>)
    requires FeedRun(es).Some?
    ensures FeedInv(FeedRun(es).value)
  {
    if es != [] {
      FeedRunKeepsInv(es[..|es| - 1]);
      FeedStepKeepsInv(FeedRun(es[..|es| - 1]).value, es[|es| - 1]);
    }
  }

  /** The ring always holds exactly the last hundred forwarded events, in order. */
  lemma RingIsLastHundred<T>(es: seq<FeedEvent<T>>)
    requires FeedRun(es).Some?
    ensures var f := FeedRun(es).value;
      && |f.ring| == (if |f.forwarded| > RING_MAX then RING_MAX else |f.forwarded|)
      && f.ring == f.forwarded[|f.forwarded| - |f.ring|..]
  {
    FeedRunKeepsInv(es);
  }

  /** In every run, a replay of `n` events takes from the ring exactly the last events forwarded:
      `n` of them, or as many as the ring holds. */
  lemma {:induction false} ReplayIsLatest<T>(es: seq<FeedEvent<T>>, n: int)
    requires FeedRun(es).Some?
    ensures var f := FeedRun(es).value;
            var events := Replayed(f.ring, n);
            && |events| == MinInt(MaxInt(n, 0), |f.ring|) <= |f.forwarded|
            && events == f.forwarded[|f.forwarded| - |events|..]
  {
    FeedRunKeepsInv(es);
    ReplayedAreLast(FeedRun(es).value.forwarded, n);
  }

  /** The feed has no gap. For a connection that was still the consumer when its replay was
      taken (or asked for none), the events addressed to it are one contiguous range that
      starts no later than its promotion, reaches back as far as the replay did, and runs up
      to where it lost the channel, or to the present; and what the replay took from the ring is
      exactly the events with those numbers. */
  lemma FeedHasNoGap<T>(es: seq<FeedEvent<T>>, c: ConnId)
    requires FeedRun(es).Some? && c in FeedRun(es).value.links
    requires var k := FeedRun(es).value.links[c]; k.snapshot.Some? ==> k.snapshot.value.asConsumer
    ensures var f := FeedRun(es).value; var k := f.links[c];
      var lo := if k.snapshot.Some? then MinInt(k.promotedAt, k.snapshot.value.at - |k.snapshot.value.events|)
                else k.promotedAt;
      && k.addressed == Range(lo, LiveEnd(f, k))
      && (k.snapshot.Some? ==> AreNumbered(f.forwarded, k.snapshot.value))
      && (f.consumer == Some(c) ==> LiveEnd(f, k) == |f.forwarded|)
  {
    FeedRunKeepsInv(es);
    var f := FeedRun(es).value;
    assert LinkInv(f, c, f.links[c]);
  }

  /** When it was superseded before its replay was taken, the events it gets are contiguous
      exactly when the replay is empty, it received nothing live, or the replay reaches back to
      where it stopped receiving. */
  lemma SupersededBeforeReplay<T>(es: seq<FeedEvent<T>>, c: ConnId)
    requires FeedRun(es).Some? && c in FeedRun(es).value.links
    requires FeedRun(es).value.links[c].snapshot.Some? && !FeedRun(es).value.links[c].snapshot.value.asConsumer
    ensures var k := FeedRun(es).value.links[c]; var sn := k.snapshot.value;
      && AreNumbered(FeedRun(es).value.forwarded, sn)
      && ((exists lo, hi :: k.addressed == Range(lo, hi)) <==>
            || sn.events == [] || LiveEnd(FeedRun(es).value, k) == k.promotedAt
            || sn.at - |sn.events| <= LiveEnd(FeedRun(es).value, k))
  {
    FeedRunKeepsInv(es);
    var f := FeedRun(es).value;
    var k := f.links[c];
    var sn := k.snapshot.value;
    assert LinkInv(f, c, k);
    var end := LiveEnd(f, k);
    if |sn.events| == 0 {
      assert k.addressed == Range(k.promotedAt, end);
    } else if end == k.promotedAt {
      assert k.addressed == Range(sn.at - |sn.events|, sn.at);
    } else if sn.at - |sn.events| <= end {
      assert k.addressed == Range(MinInt(k.promotedAt, sn.at - |sn.events|), sn.at);
    } else {
      forall lo, hi ensures k.addressed != Range(lo, hi) {
        HoleInRange(k.addressed, end - 1, end, sn.at - 1, lo, hi);
      }
    }
  }

  lemma HoleInRange(s: set<nat>, a: nat, x: nat, b: nat, lo: int, hi: int)
    requires a in s && b in s && x !in s && a <= x <= b
    ensures s != Range(lo, hi)
  {
    assert a in Range(lo, hi) && b in Range(lo, hi) ==> x in Range(lo, hi);
  }

  /** A connection that left is gone for good: no later event is addressed to it. */
  lemma {:induction false} NothingAfterLeaving<T>(es: seq<FeedEvent<T>>, fs: seq<FeedEvent<T>>, c: ConnId)
    requires es != [] && es[|es| - 1] == Left(c) && FeedRun(es + fs).Some? && FeedRun(es).Some?
    ensures c in FeedRun(es + fs).value.links && FeedRun(es + fs).value.links[c] == FeedRun(es).value.links[c]
    ensures FeedRun(es + fs).value.consumer != Some(c) && FeedRun(es).value.links[c].gone
  {
    if fs == [] {
      assert es + fs == es;
      FeedRunKeepsInv(es);
      FeedRunKeepsInv(es[..|es| - 1]);
      assert LinkInv(FeedRun(es).value, c, FeedRun(es).value.links[c]);
    } else {
      var front, all := es + fs[..|fs| - 1], es + fs;
      assert all[..|all| - 1] == front && all[|all| - 1] == fs[|fs| - 1];
      NothingAfterLeaving(es, fs[..|fs| - 1], c);
      FeedRunKeepsInv(front);
    }
  }

  /** Which steps a run can go on with: events are forwarded at any time, a connection joins once,
      takes its replay once, and leaves once. */
  lemma {:induction false} FeedGoesOn<T>(es: seq<FeedEvent<T>>, e: FeedEvent<T>)
    requires FeedRun(es).Some?
    ensures var f := FeedRun(es).value;
            FeedRun(es + [e]).Some? <==>
              match e
              case Forward(_) => true
              case Joined(c) => c !in f.links
              case Left(c) => c in f.links && !f.links[c].gone
              case Replay(c, _) => c in f.links && !f.links[c].gone && f.links[c].snapshot.None?
  {
    assert (es + [e])[..|es|] == es;
  }
}
