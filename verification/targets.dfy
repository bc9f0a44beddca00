/** The servers an agent brokers for (`cmd/shed-host-agent/config.go`, `discovery.go`). */
module Targets {
  import opened Basics

  datatype ServerTarget = ServerTarget(
    name: string, url: string, token: string, tlsFingerprint: string, sshHost: string, sshPort: int)

  function Lower(c: char): char {
    if 'A' <= c <= 'Z' then (c as int + 32) as char else c
  }

  /** The scheme decides: a case-insensitive `https://` prefix. Only ASCII letters matter,
      since no other character lowers to one of the letters of that prefix. */
  predicate IsSecure(t: ServerTarget) {
    |t.url| >= 8 && forall i :: 0 <= i < 8 ==> Lower(t.url[i]) == "https://"[i]
  }

  /** An omitted selector (no names) selects every server, an explicit list only its members. */
  datatype ServerSelector = ServerSelector(all: bool, names: Option<seq<string>>)

  predicate Selected(sel: ServerSelector, name: string) {
    sel.all || sel.names.None? || name in sel.names.value
  }

  /** `discovery` is None in single-server mode. */
  datatype Config = Config(server: string, discovery: Option<ServerSelector>)

  predicate Named(ts: seq<ServerTarget>, name: string) { exists t <- ts :: t.name == name }

  lemma NamedAppend(ts: seq<ServerTarget>, t: ServerTarget, name: string)
    ensures Named(ts + [t], name) <==> Named(ts, name) || name == t.name
  {
    assert t in ts + [t];
    if Named(ts, name) {
      var u :| u in ts && u.name == name;
      assert u in ts + [t];
    }
  }

  /** The selected servers, keeping only the first of each name. */
  function FirstOfEach(sel: ServerSelector, ts: seq<ServerTarget>): seq<ServerTarget> {
    if ts == [] then []
    else
      var front, t := ts[..|ts| - 1], ts[|ts| - 1];
      FirstOfEach(sel, front) + (if Selected(sel, t.name) && !Named(front, t.name) then [t] else [])
  }

  predicate DistinctNames(ts: seq<ServerTarget>) {
    forall i, j :: 0 <= i < j < |ts| ==> ts[i].name != ts[j].name
  }

  method ResolveTargets(c: Config, discovered: seq<ServerTarget>) returns (out: seq<ServerTarget>)
    ensures c.discovery.None? ==> out == [ServerTarget("", c.server, "", "", "", 0)]
    ensures c.discovery.Some? ==> out == FirstOfEach(c.discovery.value, discovered)
    ensures DistinctNames(out)
  {
    if c.discovery.None? {
      return [ServerTarget("", c.server, "", "", "", 0)];
    }
    var sel := c.discovery.value;
    out := [];
    var seen: set<string> := {};
    for k := 0 to |discovered|
      invariant out == FirstOfEach(sel, discovered[..k])
      invariant forall n :: n in seen <==> Selected(sel, n) && Named(discovered[..k], n)
    {
      var t := discovered[k];
      assert discovered[..k + 1] == discovered[..k] + [t];
      assert discovered[..k + 1][..k] == discovered[..k];
      forall n ensures Named(discovered[..k + 1], n) <==> Named(discovered[..k], n) || n == t.name {
        NamedAppend(discovered[..k], t, n);
      }
      if !Selected(sel, t.name) || t.name in seen { continue; }
      seen := seen + {t.name};
      out := out + [t];
    }
    assert discovered[..|discovered|] == discovered;
    FirstOfEachDistinct(sel, discovered);
  }

  lemma {:induction false} FirstOfEachDistinct(sel: ServerSelector, ts: seq<ServerTarget>)
    ensures DistinctNames(FirstOfEach(sel, ts))
    ensures forall t <- FirstOfEach(sel, ts) :: t in ts && Selected(sel, t.name)
  {
    if ts != [] {
      var front, t := ts[..|ts| - 1], ts[|ts| - 1];
      FirstOfEachDistinct(sel, front);
      assert ts == front + [t];
    }
  }

  /** A target is kept exactly when it is selected and no earlier discovered server has its name. */
  lemma {:induction false} FirstOfEachExactly(sel: ServerSelector, ts: seq<ServerTarget>, t: ServerTarget)
    ensures t in FirstOfEach(sel, ts) <==>
            Selected(sel, t.name) && exists i :: 0 <= i < |ts| && ts[i] == t && !Named(ts[..i], t.name)
  {
    if ts != [] {
      var front, last := ts[..|ts| - 1], ts[|ts| - 1];
      FirstOfEachExactly(sel, front, t);
      assert forall i :: 0 <= i < |front| ==> front[i] == ts[i] && front[..i] == ts[..i];
    }
  }

  /** Which servers a selector picks: all of them when it says so or is omitted, and otherwise
      exactly the listed ones, so an empty list picks none. */
  lemma SelectedExactly(all: bool, listed: seq<string>, name: string)
    ensures Selected(ServerSelector(true, Some(listed)), name) && Selected(ServerSelector(all, None), name)
    ensures Selected(ServerSelector(false, Some(listed)), name) <==> exists i :: 0 <= i < |listed| && listed[i] == name
    ensures !Selected(ServerSelector(false, Some([])), name)
  {
  }

  /** Which URLs are secure: those that start with "https://" in any mixture of cases, and no
      other. */
  lemma SecureExactly(t: ServerTarget)
    ensures IsSecure(t) <==>
            && |t.url| >= 8
            && t.url[0] in "hH" && t.url[1] in "tT" && t.url[2] in "tT" && t.url[3] in "pP" && t.url[4] in "sS"
            && t.url[5..8] == "://"
  {
    var scheme := "https://";
    assert scheme[0] == 'h' && scheme[1] == 't' && scheme[2] == 't' && scheme[3] == 'p' && scheme[4] == 's';
    assert scheme[5] == ':' && scheme[6] == '/' && scheme[7] == '/';
    if |t.url| >= 8 {
      assert t.url[5..8] == [t.url[5], t.url[6], t.url[7]];
    }
  }
}
