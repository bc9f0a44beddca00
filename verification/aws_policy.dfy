/** The layered AWS policy of `cmd/shed-host-agent/config.go`. */
module AWSPolicies {
  import opened Basics

  const ASSUME_ROLE := "assume-role"
  const PASSTHROUGH := "passthrough"

  datatype ShedAWSConfig = ShedAWSConfig(role: string, mode: string, sessionDuration: string)

  datatype AWSServerConfig =
    AWSServerConfig(defaultRole: string, mode: string, sessionDuration: string, sheds: map<string, ShedAWSConfig>)

  /** `sheds` is the removed global map, parsed only so that Validate can reject it. */
  datatype AWSConfig =
    AWSConfig(defaultRole: string, mode: string, sessionDuration: string,
              sheds: map<string, ShedAWSConfig>, servers: map<string, AWSServerConfig>)

  datatype ResolvedAWS = ResolvedAWS(role: string, mode: string, sessionDuration: string)

  function NormalizeMode(mode: string): string {
    if mode == "" then ASSUME_ROLE else mode
  }

  /** A known mode, as a resolved policy carries it. */
  predicate KnownMode(mode: string) {
    mode == ASSUME_ROLE || mode == PASSTHROUGH
  }

  /** A mode field is empty, meaning "no override", or known. */
  predicate ValidMode(mode: string) {
    mode == "" || KnownMode(mode)
  }

  function Over(parent: string, child: string): string {
    if child != "" then child else parent
  }

  /** Each field layers on its own, and an empty one means "no override". */
  function Overlay(layers: seq<ShedAWSConfig>): ShedAWSConfig {
    if layers == [] then ShedAWSConfig("", "", "")
    else
      var parent, child := Overlay(layers[..|layers| - 1]), layers[|layers| - 1];
      ShedAWSConfig(Over(parent.role, child.role), Over(parent.mode, child.mode),
                    Over(parent.sessionDuration, child.sessionDuration))
  }

  function Top(cfg: AWSConfig): ShedAWSConfig {
    ShedAWSConfig(cfg.defaultRole, cfg.mode, cfg.sessionDuration)
  }

  function OfServer(sv: AWSServerConfig): ShedAWSConfig {
    ShedAWSConfig(sv.defaultRole, sv.mode, sv.sessionDuration)
  }

  /** The settings that apply to a pair, least specific first. */
  function Layers(cfg: AWSConfig, server: string, shed: string): seq<ShedAWSConfig> {
    if server !in cfg.servers then [Top(cfg)]
    else
      var sv := cfg.servers[server];
      if shed !in sv.sheds then [Top(cfg), OfServer(sv)] else [Top(cfg), OfServer(sv), sv.sheds[shed]]
  }

  function Resolved(cfg: AWSConfig, server: string, shed: string): ResolvedAWS {
    var o := Overlay(Layers(cfg, server, shed));
    ResolvedAWS(o.role, NormalizeMode(o.mode), o.sessionDuration)
  }

  lemma OverlayOfThree(a: ShedAWSConfig, b: ShedAWSConfig, c: ShedAWSConfig)
    ensures Overlay([a]) == a
    ensures Overlay([a, b]) ==
            ShedAWSConfig(Over(a.role, b.role), Over(a.mode, b.mode),
                          Over(a.sessionDuration, b.sessionDuration))
    ensures Overlay([a, b, c]) ==
            ShedAWSConfig(Over(Over(a.role, b.role), c.role), Over(Over(a.mode, b.mode), c.mode),
                          Over(Over(a.sessionDuration, b.sessionDuration), c.sessionDuration))
  {
    assert [a][..0] == [];
    assert [a, b][..1] == [a];
    assert [a, b, c][..2] == [a, b];
  }

  /** The layers of a pair written out, whichever of them exist. */
  lemma OverlayOfLayers(cfg: AWSConfig, server: string, shed: string)
    ensures server !in cfg.servers ==> Overlay(Layers(cfg, server, shed)) == Top(cfg)
    ensures server in cfg.servers && shed !in cfg.servers[server].sheds ==>
              Overlay(Layers(cfg, server, shed)) == Overlay([Top(cfg), OfServer(cfg.servers[server])])
    ensures server in cfg.servers && shed in cfg.servers[server].sheds ==>
              Overlay(Layers(cfg, server, shed)) ==
                  Overlay([Top(cfg), OfServer(cfg.servers[server]), cfg.servers[server].sheds[shed]])
  {
    OverlayOfThree(Top(cfg), Top(cfg), Top(cfg));
  }

  /** AWSConfig.Resolve overwrites a record layer by layer. */
  method Resolve(cfg: AWSConfig, server: string, shed: string) returns (r: ResolvedAWS)
    ensures r == Resolved(cfg, server, shed)
  {
    OverlayOfLayers(cfg, server, shed);
    r := ResolvedAWS(cfg.defaultRole, cfg.mode, cfg.sessionDuration);
    if server in cfg.servers {
      var sv := cfg.servers[server];
      OverlayOfThree(Top(cfg), OfServer(sv), if shed in sv.sheds then sv.sheds[shed] else Top(cfg));
      if sv.defaultRole != "" { r := r.(role := sv.defaultRole); }
      if sv.mode != "" { r := r.(mode := sv.mode); }
      if sv.sessionDuration != "" { r := r.(sessionDuration := sv.sessionDuration); }
      if shed in sv.sheds {
        var sc := sv.sheds[shed];
        if sc.role != "" { r := r.(role := sc.role); }
        if sc.mode != "" { r := r.(mode := sc.mode); }
        if sc.sessionDuration != "" { r := r.(sessionDuration := sc.sessionDuration); }
      }
    }
    r := r.(mode := NormalizeMode(r.mode));
  }

  /** The most specific layer that sets a role wins, and likewise for the mode and the session
      duration, however the other fields of the layers are set; without any setting a field
      stays empty. */
  lemma {:induction false} MostSpecificWins(layers: seq<ShedAWSConfig>, i: nat)
    requires i < |layers|
    ensures (forall j :: i < j < |layers| ==> layers[j].role == "") && layers[i].role != "" ==>
              Overlay(layers).role == layers[i].role
    ensures (forall j :: i < j < |layers| ==> layers[j].mode == "") && layers[i].mode != "" ==>
              Overlay(layers).mode == layers[i].mode
    ensures (forall j :: i < j < |layers| ==> layers[j].sessionDuration == "") && layers[i].sessionDuration != "" ==>
              Overlay(layers).sessionDuration == layers[i].sessionDuration
    ensures (forall layer <- layers :: layer.role == "") ==> Overlay(layers).role == ""
    ensures (forall layer <- layers :: layer.mode == "") ==> Overlay(layers).mode == ""
    ensures (forall layer <- layers :: layer.sessionDuration == "") ==> Overlay(layers).sessionDuration == ""
  {
    var front := layers[..|layers| - 1];
    if i < |front| {
      MostSpecificWins(front, i);
    } else if front != [] {
      MostSpecificWins(front, 0);
    }
    assert forall layer <- front :: layer in layers;
    assert layers[|layers| - 1] in layers;
  }

  /** The shed's own settings for a pair, and the server's; all empty where none are configured. */
  function ShedLayer(cfg: AWSConfig, server: string, shed: string): ShedAWSConfig {
    if server in cfg.servers && shed in cfg.servers[server].sheds then cfg.servers[server].sheds[shed]
    else ShedAWSConfig("", "", "")
  }

  function ServerLayer(cfg: AWSConfig, server: string): ShedAWSConfig {
    if server in cfg.servers
    then ShedAWSConfig(cfg.servers[server].defaultRole, cfg.servers[server].mode, cfg.servers[server].sessionDuration)
    else ShedAWSConfig("", "", "")
  }

  /** For every pair and each field on its own: the shed's setting, or else the server's, or else
      the top-level one; and a mode set nowhere means assume-role. */
  lemma ResolvedByFallback(cfg: AWSConfig, server: string, shed: string)
    ensures var r, d, v := Resolved(cfg, server, shed), ShedLayer(cfg, server, shed), ServerLayer(cfg, server);
            && r.role == (if d.role != "" then d.role else if v.role != "" then v.role else cfg.defaultRole)
            && r.mode == (if d.mode != "" then d.mode else if v.mode != "" then v.mode
                          else if cfg.mode != "" then cfg.mode else "assume-role")
            && r.sessionDuration == (if d.sessionDuration != "" then d.sessionDuration
                                     else if v.sessionDuration != "" then v.sessionDuration else cfg.sessionDuration)
  {
    OverlayOfLayers(cfg, server, shed);
    OverlayOfThree(Top(cfg), ServerLayer(cfg, server), ShedLayer(cfg, server, shed));
  }

  // ---------------------------------------------------------------- fresh names

  /** A length no key reaches. */
  ghost function AboveAll(keys: set<string>): (n: nat)
    ensures forall k <- keys :: |k| < n
    decreases |keys|
  {
    if keys == {} then 0
    else
      var k: string :| k in keys;
      var n := AboveAll(keys - {k});
      if |k| < n then n else |k| + 1
  }

  /** A name that is not among finitely many. */
  ghost function FreshName(keys: set<string>): (name: string)
    ensures name !in keys
  {
    var name := seq(AboveAll(keys), _ => 'x');
    assert |name| == AboveAll(keys);
    name
  }

  // ---------------------------------------------------------------- Enabled

  /** The pair is served: passthrough, or a role to assume. */
  predicate Serves(r: ResolvedAWS) {
    r.mode == PASSTHROUGH || r.role != ""
  }

  predicate TurnsOn(layer: ShedAWSConfig) {
    layer.mode == PASSTHROUGH || layer.role != ""
  }

  /** Every setting anywhere in the configuration. */
  ghost predicate HasLayer(cfg: AWSConfig, layer: ShedAWSConfig) {
    || layer == Top(cfg)
    || (exists server <- cfg.servers :: layer == OfServer(cfg.servers[server]))
    || (exists server <- cfg.servers :: exists shed <- cfg.servers[server].sheds ::
          layer == cfg.servers[server].sheds[shed])
  }

  /** For every setting there is a pair, over all strings, for which it is the most specific
      one: the names that reach it and fresh ones below. */
  lemma ReachedBy(cfg: AWSConfig, layer: ShedAWSConfig) returns (server: string, shed: string)
    requires HasLayer(cfg, layer)
    ensures Layers(cfg, server, shed)[|Layers(cfg, server, shed)| - 1] == layer
  {
    if layer == Top(cfg) {
      server, shed := FreshName(cfg.servers.Keys), "";
    } else if s :| s in cfg.servers && layer == OfServer(cfg.servers[s]) {
      server, shed := s, FreshName(cfg.servers[s].sheds.Keys);
    } else {
      var s :| s in cfg.servers && exists d <- cfg.servers[s].sheds :: layer == cfg.servers[s].sheds[d];
      var d :| d in cfg.servers[s].sheds && layer == cfg.servers[s].sheds[d];
      server, shed := s, d;
    }
  }

  lemma LayersAreInConfig(cfg: AWSConfig, server: string, shed: string)
    ensures forall layer <- Layers(cfg, server, shed) :: HasLayer(cfg, layer)
  {
  }

  lemma {:induction false} OverlayTurnsOn(layers: seq<ShedAWSConfig>)
    ensures layers != [] && TurnsOn(layers[|layers| - 1]) ==> TurnsOn(Overlay(layers))
    ensures TurnsOn(Overlay(layers)) ==> exists layer <- layers :: TurnsOn(layer)
  {
    if layers != [] {
      var front := layers[..|layers| - 1];
      OverlayTurnsOn(front);
      assert TurnsOn(Overlay(layers)) ==> TurnsOn(Overlay(front)) || TurnsOn(layers[|layers| - 1]);
    }
  }

  /** The AWS handler starts exactly when some (server, shed) pair, over all strings and not
      just the configured names, is served. */
  method Enabled(cfg: AWSConfig) returns (enabled: bool)
    ensures enabled <==> exists server, shed :: Serves(Resolved(cfg, server, shed))
  {
    EnabledExactly(cfg);
    if cfg.mode == PASSTHROUGH || cfg.defaultRole != "" {
      assert TurnsOn(Top(cfg));
      return true;
    }
    var servers := cfg.servers.Keys;
    while servers != {}
      invariant servers <= cfg.servers.Keys && !TurnsOn(Top(cfg))
      invariant forall server <- cfg.servers.Keys - servers :: ServerIsOff(cfg.servers[server])
      decreases |servers|
    {
      var server :| server in servers;
      servers := servers - {server};
      var sv := cfg.servers[server];
      if sv.mode == PASSTHROUGH || sv.defaultRole != "" {
        assert TurnsOn(OfServer(sv));
        return true;
      }
      var sheds := sv.sheds.Keys;
      while sheds != {}
        invariant sheds <= sv.sheds.Keys && forall shed <- sv.sheds.Keys - sheds :: !TurnsOn(sv.sheds[shed])
        decreases |sheds|
      {
        var shed :| shed in sheds;
        sheds := sheds - {shed};
        var sc := sv.sheds[shed];
        if sc.mode == PASSTHROUGH || sc.role != "" {
          assert TurnsOn(sc);
          return true;
        }
      }
    }
    assert forall layer | HasLayer(cfg, layer) :: !TurnsOn(layer);
    return false;
  }

  predicate ServerIsOff(sv: AWSServerConfig) {
    !TurnsOn(OfServer(sv)) && forall shed <- sv.sheds :: !TurnsOn(sv.sheds[shed])
  }

  lemma EnabledExactly(cfg: AWSConfig)
    ensures (exists layer :: HasLayer(cfg, layer) && TurnsOn(layer)) <==>
              exists server, shed :: Serves(Resolved(cfg, server, shed))
  {
    if layer :| HasLayer(cfg, layer) && TurnsOn(layer) {
      var server, shed := ReachedBy(cfg, layer);
      OverlayTurnsOn(Layers(cfg, server, shed));
      assert Serves(Resolved(cfg, server, shed));
    }
    if server, shed :| Serves(Resolved(cfg, server, shed)) {
      OverlayTurnsOn(Layers(cfg, server, shed));
      LayersAreInConfig(cfg, server, shed);
      assert TurnsOn(Overlay(Layers(cfg, server, shed)));
      var layer :| layer in Layers(cfg, server, shed) && TurnsOn(layer);
      assert HasLayer(cfg, layer);
    }
  }

  // ---------------------------------------------------------------- validate

  datatype ConfigError = ShedsRemoved | UnknownMode(mode: string)

  /** An accepted configuration has no entry in the removed map and resolves every pair, over
      all strings, to one of the two known modes; and nothing else is rejected. */
  method Validate(cfg: AWSConfig) returns (r: Result<(), ConfigError>)
    ensures r.Ok? <==> cfg.sheds == map[] && forall server, shed :: KnownMode(Resolved(cfg, server, shed).mode)
    ensures r.Err? && r.error.ShedsRemoved? <==> cfg.sheds != map[]
    ensures r.Err? && r.error.UnknownMode? ==>
              !ValidMode(r.error.mode) && exists layer :: HasLayer(cfg, layer) && layer.mode == r.error.mode
  {
    if |cfg.sheds| > 0 { return Err(ShedsRemoved); }
    ValidExactly(cfg);
    if !ValidMode(cfg.mode) {
      assert HasLayer(cfg, Top(cfg));
      return Err(UnknownMode(cfg.mode));
    }
    var servers := cfg.servers.Keys;
    while servers != {}
      invariant servers <= cfg.servers.Keys
      invariant forall server <- cfg.servers.Keys - servers :: ServerIsValid(cfg.servers[server])
      decreases |servers|
    {
      var server :| server in servers;
      servers := servers - {server};
      var sv := cfg.servers[server];
      if !ValidMode(sv.mode) {
        assert HasLayer(cfg, OfServer(sv));
        return Err(UnknownMode(sv.mode));
      }
      var sheds := sv.sheds.Keys;
      while sheds != {}
        invariant sheds <= sv.sheds.Keys && forall shed <- sv.sheds.Keys - sheds :: ValidMode(sv.sheds[shed].mode)
        decreases |sheds|
      {
        var shed :| shed in sheds;
        sheds := sheds - {shed};
        var sc := sv.sheds[shed];
        if !ValidMode(sc.mode) {
          assert HasLayer(cfg, sc);
          return Err(UnknownMode(sc.mode));
        }
      }
    }
    return Ok(());
  }

  predicate ServerIsValid(sv: AWSServerConfig) {
    ValidMode(sv.mode) && forall shed <- sv.sheds :: ValidMode(sv.sheds[shed].mode)
  }

  lemma {:induction false} OverlayValid(layers: seq<ShedAWSConfig>)
    ensures (forall layer <- layers :: ValidMode(layer.mode)) ==> ValidMode(Overlay(layers).mode)
    ensures layers != [] && !ValidMode(layers[|layers| - 1].mode) ==> !ValidMode(Overlay(layers).mode)
  {
    if layers != [] {
      OverlayValid(layers[..|layers| - 1]);
      assert layers[|layers| - 1] in layers;
    }
  }

  lemma ValidExactly(cfg: AWSConfig)
    ensures (forall layer | HasLayer(cfg, layer) :: ValidMode(layer.mode))
            <==> forall server, shed :: KnownMode(Resolved(cfg, server, shed).mode)
  {
    if layer :| HasLayer(cfg, layer) && !ValidMode(layer.mode) {
      var server, shed := ReachedBy(cfg, layer);
      OverlayValid(Layers(cfg, server, shed));
      assert !KnownMode(Resolved(cfg, server, shed).mode);
    } else {
      forall server, shed ensures KnownMode(Resolved(cfg, server, shed).mode) {
        OverlayValid(Layers(cfg, server, shed));
        LayersAreInConfig(cfg, server, shed);
      }
    }
  }
}
