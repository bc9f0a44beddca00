/** The merge that `internal/rc/trust.go` applies to claude's configuration tree. */
module TrustMerge {
  import opened Basics

  /** A decoded JSON value. Numbers stay the literals they were written as. */
  datatype Json =
    | Null
    | Bool(b: bool)
    | Num(lit: string)
    | Str(s: string)
    | Arr(items: seq<Json>)
    | Obj(fields: map<string, Json>)

  type Fields = map<string, Json>

  const PROJECTS := "projects"
  const TRUST := "hasTrustDialogAccepted"
  const ONBOARDING := "hasCompletedOnboarding"
  const THEME := "theme"
  const UPSELL := "fullscreenUpsellSeenCount"
  const WARNING := "hasSeenAutoModeEntryWarning"

  const UPSELL_FLOOR := 999
  const INT64_LIMIT := 0x8000_0000_0000_0000

  predicate IsDigits(s: string) {
    s != "" && forall c <- s :: IsDigit(c)
  }

  /** Go's `strconv.ParseInt(s, 10, 64)`. */
  function ParseInt64(s: string): Option<int> {
    var body := if s != "" && (s[0] == '-' || s[0] == '+') then s[1..] else s;
    if !IsDigits(body) then None
    else
      var n: int := if s[0] == '-' then 0 - DigitsValue(body) else DigitsValue(body);
      if -INT64_LIMIT <= n < INT64_LIMIT then Some(n) else None
  }

  function JsonNumberInt(v: Json): int {
    if v.Num? && ParseInt64(v.lit).Some? then ParseInt64(v.lit).value else 0
  }

  /** Go's checked type assertion to an object: any other value, or none, gives a fresh one. */
  function ObjectAt(m: Fields, key: string): Fields {
    if key in m && m[key].Obj? then m[key].fields else map[]
  }

  function Trusted(projects: Fields, workdir: string): Json {
    Obj(ObjectAt(projects, workdir)[TRUST := Bool(true)])
  }

  /** The projects with each of `ws` marked trusted. */
  function TrustAll(projects: Fields, ws: set<string>): Fields {
    map w | w in projects.Keys + ws :: if w in ws then Trusted(projects, w) else projects[w]
  }

  function Floored(config: Fields): Json {
    if UPSELL !in config || JsonNumberInt(config[UPSELL]) < UPSELL_FLOOR then Num("999") else config[UPSELL]
  }

  function OrDefault(config: Fields, key: string, default: Json): Json {
    if key in config then config[key] else default
  }

  const OWN_KEYS: set<string> := {PROJECTS, ONBOARDING, THEME, UPSELL, WARNING}

  lemma KeysDiffer()
    ensures PROJECTS !in {ONBOARDING, THEME, UPSELL, WARNING}
    ensures ONBOARDING !in {THEME, UPSELL, WARNING}
    ensures THEME !in {UPSELL, WARNING} && UPSELL != WARNING
  {
    assert |PROJECTS| == 8 && |ONBOARDING| == 22 && |THEME| == 5 && |UPSELL| == 25 && |WARNING| == 27;
  }

  /** The value an own key has after the merge. */
  function Own(config: Fields, ws: set<string>, key: string): Json {
    if key == PROJECTS then Obj(TrustAll(ObjectAt(config, PROJECTS), ws))
    else if key == ONBOARDING then Bool(true)
    else if key == THEME then OrDefault(config, THEME, Str("dark"))
    else if key == UPSELL then Floored(config)
    else OrDefault(config, WARNING, Bool(true))
  }

  /** The configuration with a whole set of work directories preseeded. */
  function MergeSet(config: Fields, ws: set<string>): Fields {
    if ws == {} then config
    else map key | key in config.Keys + OWN_KEYS :: if key in OWN_KEYS then Own(config, ws, key) else config[key]
  }

  /** The in-place merge of PreseedClaudeConfig, step by step. */
  method Merge(config0: Fields, workdir: string) returns (config: Fields)
    ensures config == MergeSet(config0, {workdir})
  {
    KeysDiffer();
    config := config0;
    var projects := ObjectAt(config, PROJECTS);
    var proj := ObjectAt(projects, workdir);
    proj := proj[TRUST := Bool(true)];
    projects := projects[workdir := Obj(proj)];
    assert projects == TrustAll(ObjectAt(config0, PROJECTS), {workdir});
    config := config[PROJECTS := Obj(projects)];
    config := config[ONBOARDING := Bool(true)];
    if THEME !in config {
      config := config[THEME := Str("dark")];
    }
    if UPSELL !in config || JsonNumberInt(config[UPSELL]) < UPSELL_FLOOR {
      config := config[UPSELL := Num("999")];
    }
    if WARNING !in config {
      config := config[WARNING := Bool(true)];
    }
    MergedPointwise(config0, config, {workdir});
  }

  lemma MergedPointwise(config: Fields, merged: Fields, ws: set<string>)
    requires ws != {} && merged.Keys == config.Keys + OWN_KEYS
    requires forall key <- config :: key !in OWN_KEYS ==> merged[key] == config[key]
    requires merged[PROJECTS] == Obj(TrustAll(ObjectAt(config, PROJECTS), ws)) && merged[ONBOARDING] == Bool(true)
    requires merged[THEME] == OrDefault(config, THEME, Str("dark")) && merged[UPSELL] == Floored(config)
    requires merged[WARNING] == OrDefault(config, WARNING, Bool(true))
    ensures merged == MergeSet(config, ws)
  {
    KeysDiffer();
  }

  // ---------------------------------------------------------------- order and repetition

  lemma FloorLiteral()
    ensures JsonNumberInt(Num("999")) == UPSELL_FLOOR
  {
    var lit := "999";
    assert lit[..2][..1] == "9" && lit[..2] == "99";
    assert DigitsValue(lit[..2][..1]) == 9;
    assert DigitsValue(lit[..2]) == 99;
    assert DigitsValue(lit) == 999;
  }

  lemma FlooredStays(config: Fields, merged: Fields)
    requires UPSELL in merged && merged[UPSELL] == Floored(config)
    ensures Floored(merged) == Floored(config) && JsonNumberInt(merged[UPSELL]) >= UPSELL_FLOOR
  {
    FloorLiteral();
  }

  lemma TrustAllTwice(projects: Fields, a: set<string>, b: set<string>)
    ensures TrustAll(TrustAll(projects, a), b) == TrustAll(projects, a + b)
  {
    var once := TrustAll(projects, a);
    forall w | w in projects.Keys + a + b
      ensures TrustAll(once, b)[w] == TrustAll(projects, a + b)[w]
    {
      if w in a && w in b {
        assert ObjectAt(once, w) == ObjectAt(projects, w)[TRUST := Bool(true)];
        assert ObjectAt(projects, w)[TRUST := Bool(true)][TRUST := Bool(true)] ==
            ObjectAt(projects, w)[TRUST := Bool(true)];
      } else if w in b {
        assert ObjectAt(once, w) == ObjectAt(projects, w);
      }
    }
  }

  lemma OwnTwice(config: Fields, a: set<string>, b: set<string>, key: string)
    requires a != {} && b != {} && key in OWN_KEYS
    ensures Own(MergeSet(config, a), b, key) == Own(config, a + b, key)
  {
    KeysDiffer();
    var once := MergeSet(config, a);
    if key == PROJECTS {
      assert ObjectAt(once, PROJECTS) == TrustAll(ObjectAt(config, PROJECTS), a);
      TrustAllTwice(ObjectAt(config, PROJECTS), a, b);
    } else if key == UPSELL {
      FlooredStays(config, once);
    }
  }

  /** Merging one set and then another is merging their union: neither order nor repetition
      matters, and nothing an earlier merge wrote is lost. */
  lemma MergeOfMerge(config: Fields, a: set<string>, b: set<string>)
    ensures MergeSet(MergeSet(config, a), b) == MergeSet(config, a + b)
  {
    if a == {} {
      assert a + b == b;
    } else if b == {} {
      assert a + b == a;
    } else {
      forall key | key in OWN_KEYS ensures Own(MergeSet(config, a), b, key) == Own(config, a + b, key) {
        OwnTwice(config, a, b, key);
      }
    }
  }

  /** Two preseeds in either order, or one done twice, leave the same tree. */
  lemma OrderIsIrrelevant(config: Fields, v: string, w: string)
    ensures MergeSet(MergeSet(config, {v}), {w}) == MergeSet(MergeSet(config, {w}), {v})
    ensures MergeSet(MergeSet(config, {v}), {v}) == MergeSet(config, {v})
  {
    MergeOfMerge(config, {v}, {w});
    MergeOfMerge(config, {w}, {v});
    MergeOfMerge(config, {v}, {v});
    assert {v} + {w} == {w} + {v} && {v} + {v} == {v};
  }

  // ---------------------------------------------------------------- what is kept

  /** The value a path of keys leads to. */
  function Lookup(v: Json, path: seq<string>): Option<Json> {
    if path == [] then Some(v)
    else if v.Obj? && path[0] in v.fields then Lookup(v.fields[path[0]], path[1..])
    else None
  }

  /** The places the merge for `ws` means to write: two top-level keys and one flag in each
      trusted project. */
  predicate MeansToWrite(path: seq<string>, ws: set<string>) {
    || (|path| >= 1 && (path[0] == ONBOARDING || path[0] == UPSELL))
    || (|path| >= 3 && path[0] == PROJECTS && path[1] in ws && path[2] == TRUST)
  }

  /** The objects it descends into to get there. They may grow, or be created. */
  predicate Passes(path: seq<string>, ws: set<string>) {
    path == [] || path == [PROJECTS] || (|path| == 2 && path[0] == PROJECTS && path[1] in ws)
  }

  /** The keys it fills in when they are absent. */
  predicate FillsIn(config: Fields, path: seq<string>) {
    path != [] && (path[0] == THEME || path[0] == WARNING) && path[0] !in config
  }

  /** Everything else in the tree is as it was: what was there is still there, objects and empty
      ones included, and nothing is added. */
  ghost predicate KeepsTheRest(config: Fields, merged: Fields, ws: set<string>) {
    forall path: seq<string> :: KeepsAt(config, merged, ws, path)
  }

  predicate KeepsAt(config: Fields, merged: Fields, ws: set<string>, path: seq<string>) {
    var was := Lookup(Obj(config), path);
    var now := Lookup(Obj(merged), path);
    if MeansToWrite(path, ws) || FillsIn(config, path) then true
    else if Passes(path, ws) then was.Some? && !was.value.Obj? ==> now == was
    else now == was
  }

  /** The places the merge descends into hold objects, or nothing. */
  predicate PlacesAreObjects(config: Fields, ws: set<string>) {
    && (PROJECTS in config ==> config[PROJECTS].Obj?)
    && forall w <- ws :: w in ObjectAt(config, PROJECTS) ==> ObjectAt(config, PROJECTS)[w].Obj?
  }

  /** The merge clobbers and adds nothing exactly when the places it descends into are objects
      or absent: a `projects`, or a project, of any other kind is replaced and lost. */
  lemma ClobbersNothingExactly(config: Fields, ws: set<string>)
    requires ws != {}
    ensures KeepsTheRest(config, MergeSet(config, ws), ws) <==> PlacesAreObjects(config, ws)
  {
    KeysDiffer();
    var merged := MergeSet(config, ws);
    if PlacesAreObjects(config, ws) {
      forall path: seq<string> ensures KeepsAt(config, merged, ws, path) {
        KeepsPath(config, ws, path);
      }
    } else if PROJECTS in config && !config[PROJECTS].Obj? {
      var path := [PROJECTS];
      assert Lookup(Obj(config), path) == Some(config[PROJECTS]);
      assert Lookup(Obj(merged), path) == Some(merged[PROJECTS]);
      assert !KeepsAt(config, merged, ws, path);
    } else {
      var w :| w in ws && w in ObjectAt(config, PROJECTS) && !ObjectAt(config, PROJECTS)[w].Obj?;
      var path := [PROJECTS, w];
      LookupTwo(config, w);
      LookupTwo(merged, w);
      assert !KeepsAt(config, merged, ws, path);
    }
  }

  lemma LookupTwo(config: Fields, w: string)
    ensures PROJECTS in config && config[PROJECTS].Obj? && w in config[PROJECTS].fields ==>
              Lookup(Obj(config), [PROJECTS, w]) == Some(config[PROJECTS].fields[w])
  {
    LookupCons(Obj(config), PROJECTS, [w]);
    assert [PROJECTS] + [w] == [PROJECTS, w];
    if PROJECTS in config { LookupCons(config[PROJECTS], w, []); }
    assert [w] + [] == [w];
  }

  lemma LookupCons(v: Json, key: string, rest: seq<string>)
    ensures Lookup(v, [key] + rest) == if v.Obj? && key in v.fields then Lookup(v.fields[key], rest) else None
  {
    assert ([key] + rest)[1..] == rest;
  }

  lemma KeepsPath(config: Fields, ws: set<string>, path: seq<string>)
    requires ws != {} && PlacesAreObjects(config, ws)
    ensures KeepsAt(config, MergeSet(config, ws), ws, path)
  {
    KeysDiffer();
    var merged := MergeSet(config, ws);
    if |path| > 1 && path[0] == PROJECTS {
      var ps := ObjectAt(config, PROJECTS);
      assert ObjectAt(merged, PROJECTS) == TrustAll(ps, ws);
      LookupInProject(config, path);
      LookupInProject(merged, path);
      if |path| > 2 && path[1] in ws {
        KeepsInProject(ObjectAt(ps, path[1]), path[2..]);
        assert path[2..][0] == path[2];
      }
    }
  }

  lemma LookupInProject(config: Fields, path: seq<string>)
    requires |path| > 1 && path[0] == PROJECTS
    ensures var ps := ObjectAt(config, PROJECTS);
            Lookup(Obj(config), path) == if path[1] in ps then Lookup(ps[path[1]], path[2..]) else None
  {
    assert path == [PROJECTS] + path[1..] && path[1..] == [path[1]] + path[2..];
    LookupCons(Obj(config), PROJECTS, path[1..]);
    if PROJECTS in config { LookupCons(config[PROJECTS], path[1], path[2..]); }
  }

  lemma KeepsInProject(proj: Fields, path: seq<string>)
    ensures path != [] && path[0] != TRUST ==> Lookup(Obj(proj[TRUST := Bool(true)]), path) == Lookup(Obj(proj), path)
  {
  }

  // ---------------------------------------------------------------- the seen count

  function Pow10(n: nat): real {
    if n == 0 then 1.0 else 10.0 * Pow10(n - 1)
  }

  /** The digits of a text, taken as one number. */
  function Digits(s: string): nat {
    if IsDigits(s) then DigitsValue(s) else 0
  }

  function Unsigned(s: string): string {
    if s != "" && (s[0] == '-' || s[0] == '+') then s[1..] else s
  }

  function Signed(s: string, v: real): real {
    if s != "" && s[0] == '-' then -v else v
  }

  /** The part of a text before the first `c`, and the part after it ("" if there is none). */
  function Before(s: string, c: char): string { s[..IndexOf(s, c)] }

  function After(s: string, c: char): string {
    if IndexOf(s, c) < |s| then s[IndexOf(s, c) + 1..] else ""
  }

  function Exponent(s: string): real {
    var n := Digits(Unsigned(s));
    if s != "" && s[0] == '-' then 1.0 / PositivePow10(n) else Pow10(n)
  }

  function PositivePow10(n: nat): (r: real)
    ensures r == Pow10(n) && r > 0.0
  {
    if n == 0 then 1.0 else 10.0 * PositivePow10(n - 1)
  }

  /** The number a JSON literal stands for: sign, digits, fraction and exponent, as in section 6
      of RFC 8259. */
  function NumberValue(lit: string): real {
    var small := seq(|lit|, i requires 0 <= i < |lit| => if lit[i] == 'E' then 'e' else lit[i]);
    var mantissa := Unsigned(Before(small, 'e'));
    var fraction := After(mantissa, '.');
    var whole := Digits(Before(mantissa, '.') + fraction) as real;
    Signed(lit, whole / PositivePow10(|fraction|) * Exponent(After(small, 'e')))
  }

  /** Any reading of number literals that agrees with int64 literals. */
  ghost predicate ReadsInts(value: string -> real) {
    forall s: string :: ParseInt64(s).Some? ==> value(s) == ParseInt64(s).value as real
  }

  /** When a seen count ends up lower than it was, whatever numbers the other notations stand
      for: exactly when it is not an int64 literal and stands for more than the floor. */
  lemma UpsellLoweredExactly(config: Fields, ws: set<string>, value: string -> real)
    requires ReadsInts(value) && ws != {} && UPSELL in config && config[UPSELL].Num?
    ensures var lit := config[UPSELL].lit;
            var merged := MergeSet(config, ws);
            && UPSELL in merged && merged[UPSELL].Num?
            && (value(merged[UPSELL].lit) < value(lit) <==> ParseInt64(lit).None? && value(lit) > UPSELL_FLOOR as real)
  {
    KeysDiffer();
    FloorLiteral();
    FlooredStays(config, MergeSet(config, ws));
    assert ParseInt64("999") == Some(UPSELL_FLOOR);
    assert ParseInt64(config[UPSELL].lit).Some? ==>
        value(config[UPSELL].lit) == ParseInt64(config[UPSELL].lit).value as real;
  }

  /** A seen count written as an int64 literal is never lowered; and the merged count is always
      an int64 literal of at least the floor. */
  lemma UpsellNeverLowered(config: Fields, ws: set<string>)
    requires ws != {}
    ensures var merged := MergeSet(config, ws);
            && UPSELL in merged && JsonNumberInt(merged[UPSELL]) >= UPSELL_FLOOR
            && (UPSELL in config && config[UPSELL].Num? && ParseInt64(config[UPSELL].lit).Some? ==>
                  JsonNumberInt(merged[UPSELL]) >= ParseInt64(config[UPSELL].lit).value)
            && (UPSELL in config && JsonNumberInt(config[UPSELL]) >= 999 ==> merged[UPSELL] == config[UPSELL])
  {
    KeysDiffer();
    FlooredStays(config, MergeSet(config, ws));
  }

  lemma NoSuchChar(s: string, c: char)
    requires c !in s
    ensures Before(s, c) == s && After(s, c) == ""
  {
  }

  /** An int64 literal stands for the integer ParseInt64 reads. */
  lemma NumberValueReadsInts()
    ensures ReadsInts(NumberValue)
  {
    forall s: string | ParseInt64(s).Some? ensures NumberValue(s) == ParseInt64(s).value as real {
      IntLiteralValue(s);
    }
  }

  lemma IntLiteralValue(s: string)
    requires ParseInt64(s).Some?
    ensures NumberValue(s) == ParseInt64(s).value as real
  {
    var body := Unsigned(s);
    assert forall c <- s :: c in body || c == s[0];
    assert 'e' !in s && 'E' !in s && '.' !in body;
    var small := seq(|s|, i requires 0 <= i < |s| => if s[i] == 'E' then 'e' else s[i]);
    assert small == s;
    NoSuchChar(s, 'e');
    NoSuchChar(body, '.');
    assert body + "" == body;
    assert Digits(body) == DigitsValue(body);
    assert PositivePow10(0) == 1.0 && Exponent("") == 1.0;
  }

  /** The count 1e6, a million, reads as zero and is lowered to 999. */
  lemma ExponentIsLowered(ws: set<string>)
    requires ws != {}
    ensures var merged := MergeSet(map[UPSELL := Num("1e6")], ws);
            && UPSELL in merged && merged[UPSELL] == Num("999")
            && NumberValue("999") == 999.0 < NumberValue("1e6") == 1_000_000.0
  {
    KeysDiffer();
    NotAnInt();
    MillionValue();
    FloorLiteral();
    assert ParseInt64("999") == Some(UPSELL_FLOOR);
    IntLiteralValue("999");
  }

  lemma NotAnInt()
    ensures JsonNumberInt(Num("1e6")) == 0
  {
    var lit := "1e6";
    assert lit[1] == 'e' && lit[1] in lit && !IsDigit(lit[1]);
  }

  lemma MillionValue()
    ensures NumberValue("1e6") == 1_000_000.0
  {
    var lit, one, six := "1e6", "1", "6";
    var small := seq(|lit|, i requires 0 <= i < |lit| => if lit[i] == 'E' then 'e' else lit[i]);
    assert small == lit;
    assert IndexOf(lit, 'e') == 1 by { assert lit[1] == 'e'; }
    assert Before(lit, 'e') == one && After(lit, 'e') == six;
    NoSuchChar(one, '.');
    assert one + "" == one;
    assert one[..0] == "" && six[..0] == "";
    assert DigitsValue(one) == 1 && DigitsValue(six) == 6;
    assert Digits(one) == 1 && Digits(six) == 6;
    assert PositivePow10(0) == 1.0;
    assert Pow10(2) == 100.0;
    assert Pow10(4) == 10_000.0;
    assert Pow10(6) == 1_000_000.0;
  }

  /** Every preseeded directory is trusted, the onboarding gate is cleared, and a choice the
      user made for the theme or the warning stays. */
  lemma MergedIsTrusted(config: Fields, ws: set<string>, w: string)
    requires w in ws
    ensures var merged := MergeSet(config, ws);
            && Lookup(Obj(merged), [PROJECTS, w, TRUST]) == Some(Bool(true))
            && Lookup(Obj(merged), [ONBOARDING]) == Some(Bool(true))
            && (forall key <- {THEME, WARNING} :: key in merged && (key in config ==> merged[key] == config[key]))
            && (THEME !in config ==> merged[THEME] == Str("dark"))
            && (WARNING !in config ==> merged[WARNING] == Bool(true))
  {
    KeysDiffer();
    var merged := MergeSet(config, ws);
    LookupCons(Obj(merged), PROJECTS, [w, TRUST]);
    LookupCons(merged[PROJECTS], w, [TRUST]);
    assert [PROJECTS] + [w, TRUST] == [PROJECTS, w, TRUST] && [w] + [TRUST] == [w, TRUST];
  }

  /** An integer in decimal. */
  function IntText(n: int): string {
    if n < 0 then "-" + NatText(-n) else NatText(n)
  }

  /** ParseInt64 reads every printed integer of 64 bits back, and refuses every larger one. */
  lemma IntTextParses(n: int)
    ensures ParseInt64(IntText(n)) == if -0x8000_0000_0000_0000 <= n <= 0x7fff_ffff_ffff_ffff then Some(n) else None
  {
    if n < 0 {
      NatTextReads(-n);
      assert ("-" + NatText(-n))[1..] == NatText(-n);
    } else {
      NatTextReads(n);
      assert IsDigit(NatText(n)[0]);
    }
  }

  lemma UnsignedReads(s: string)
    requires IsDigits(s)
    ensures Unsigned(s) == Unsigned("+" + s) == Unsigned("-" + s) == s && s[0] != '-'
  {
    assert IsDigit(s[0]);
    assert ("+" + s)[1..] == s && ("-" + s)[1..] == s;
  }

  lemma Reciprocal(r: real)
    requires r > 0.0
    ensures 1.0 / r * r == 1.0
  {
  }

  lemma ExponentOf(text: string, n: nat)
    requires Digits(Unsigned(text)) == n
    ensures text != "" && text[0] == '-' ==> Exponent(text) * PositivePow10(n) == 1.0
    ensures text == "" || text[0] != '-' ==> Exponent(text) == PositivePow10(n)
  {
    var r := PositivePow10(n);
    Reciprocal(r);
  }

  /** A positive exponent scales up by that power of ten. */
  lemma ScalesUp(s: string)
    requires IsDigits(s)
    ensures Exponent(s) == Exponent("+" + s) == PositivePow10(DigitsValue(s))
  {
    var up := "+" + s;
    UnsignedReads(s);
    ExponentOf(s, DigitsValue(s));
    ExponentOf(up, DigitsValue(s));
  }

  /** A negative one scales down by it. */
  lemma ScalesDown(s: string)
    requires IsDigits(s)
    ensures Exponent("-" + s) * PositivePow10(DigitsValue(s)) == 1.0
  {
    var down := "-" + s;
    UnsignedReads(s);
    ExponentOf(down, DigitsValue(s));
  }
}
