/** The SHED_RC_* metadata a session is stamped with (`internal/rc/meta.go`) and the
    line-oriented `tmux show-environment` dump it is read back from (`internal/rc/tmux.go`). */
module Meta {
  import opened Basics
  import opened Shell
  import opened RC

  datatype Metadata = Metadata(
    id: string, displayName: string, kind: Kind, workdir: string,
    createdBy: string, createdAt: string, target: string)

  datatype Session = Session(
    slug: string, tmuxSession: string, kind: Kind, state: State, managed: bool,
    displayName: string, workdir: string, url: string, id: string,
    createdBy: string, createdAt: string, targetLabel: string)

  const ENV_PREFIX := "SHED_RC_"
  const TMUX_PREFIX := "rc-"

  datatype Key = V | ID | DisplayName | KindKey | Workdir | CreatedBy | CreatedAt | Target

  /** What follows the prefix in each variable's name. */
  function Suffix(k: Key): string {
    match k
    case V => "V"
    case ID => "ID"
    case DisplayName => "DISPLAY_NAME"
    case KindKey => "KIND"
    case Workdir => "WORKDIR"
    case CreatedBy => "CREATED_BY"
    case CreatedAt => "CREATED_AT"
    case Target => "TARGET"
  }

  function Name(k: Key): string { ENV_PREFIX + Suffix(k) }

  datatype Pair = Pair(key: Key, value: string)

  function Line(p: Pair): string { Name(p.key) + "=" + p.value }

  /** The pairs in their fixed order; the target only when set. */
  function Pairs(m: Metadata): seq<Pair> {
    [Pair(V, "2"), Pair(ID, m.id), Pair(DisplayName, m.displayName), Pair(KindKey, KindText(m.kind)),
     Pair(Workdir, m.workdir), Pair(CreatedBy, m.createdBy), Pair(CreatedAt, m.createdAt)] +
    (if m.target != "" then [Pair(Target, m.target)] else [])
  }

  /** The `-e KEY=value` arguments for a list of pairs. */
  function Arguments(ps: seq<Pair>): seq<string> {
    if ps == [] then [] else Arguments(ps[..|ps| - 1]) + ["-e", Line(ps[|ps| - 1])]
  }

  predicate SingleLine(ps: seq<Pair>) {
    forall p <- ps :: !HasControlChars(p.value)
  }

  /** Succeeds exactly when every value is single-line; otherwise names the first bad key. */
  method BuildEnvArgs(m: Metadata) returns (r: Result<seq<string>, string>)
    ensures r.Ok? <==> SingleLine(Pairs(m))
    ensures r.Ok? ==> r.value == Arguments(Pairs(m))
    ensures r.Ok? ==> forall i :: 0 <= i < |Pairs(m)| ==>
              |r.value| == 2 * |Pairs(m)| && r.value[2 * i] == "-e" && r.value[2 * i + 1] == Line(Pairs(m)[i])
    ensures r.Err? ==> FirstBad(Pairs(m), r.error)
  {
    r := BuildArgs(Pairs(m));
    forall i | 0 <= i < |Pairs(m)|
      ensures |Arguments(Pairs(m))| == 2 * |Pairs(m)| && Arguments(Pairs(m))[2 * i] == "-e"
      ensures Arguments(Pairs(m))[2 * i + 1] == Line(Pairs(m)[i])
    {
      ArgumentsAreLines(Pairs(m), i);
    }
  }

  ghost predicate FirstBad(ps: seq<Pair>, name: string) {
    exists i :: 0 <= i < |ps| && name == Name(ps[i].key) && HasControlChars(ps[i].value) && SingleLine(ps[..i])
  }

  method BuildArgs(pairs: seq<Pair>) returns (r: Result<seq<string>, string>)
    ensures r.Ok? <==> SingleLine(pairs)
    ensures r.Ok? ==> r.value == Arguments(pairs)
    ensures r.Err? ==> FirstBad(pairs, r.error)
  {
    var args: seq<string> := [];
    for i := 0 to |pairs|
      invariant args == Arguments(pairs[..i])
      invariant SingleLine(pairs[..i])
    {
      var p := pairs[i];
      assert p in pairs;
      if HasControlChars(p.value) {
        return Err(Name(p.key));
      }
      args := args + ["-e", Line(p)];
      assert pairs[..i + 1][..i] == pairs[..i];
    }
    assert pairs[..|pairs|] == pairs;
    return Ok(args);
  }

  // ---------------------------------------------------------------- reading back

  function Keep(lines: seq<string>): seq<string> {
    if lines == [] then []
    else Keep(lines[..|lines| - 1]) + (if HasPrefix(lines[|lines| - 1], ENV_PREFIX) then [lines[|lines| - 1]] else [])
  }

  /** The dump with only its SHED_RC_ lines left, each terminated; empty when the command
      fails. */
  method ShowEnvironment(stdout: Option<string>) returns (dump: string)
    ensures dump == if stdout.None? then "" else JoinLines(Keep(Split(stdout.value, '\n')))
  {
    if stdout.None? { return ""; }
    var lines := Split(stdout.value, '\n');
    dump := "";
    for i := 0 to |lines|
      invariant dump == JoinLines(Keep(lines[..i]))
    {
      var line := lines[i];
      assert lines[..i + 1] == lines[..i] + [line];
      KeepAppend(lines[..i], line);
      if HasPrefix(line, ENV_PREFIX) {
        JoinLinesAppend(Keep(lines[..i]), line);
        dump := dump + line + "\n";
      } else {
        assert Keep(lines[..i]) + [] == Keep(lines[..i]);
      }
    }
    assert lines[..|lines|] == lines;
  }

  lemma KeepAppend(lines: seq<string>, l: string)
    ensures Keep(lines + [l]) == Keep(lines) + (if HasPrefix(l, ENV_PREFIX) then [l] else [])
  {
    assert (lines + [l])[..|lines|] == lines;
  }

  lemma {:induction false} JoinLinesAppend(ls: seq<string>, l: string)
    ensures JoinLines(ls + [l]) == JoinLines(ls) + l + "\n"
  {
    if ls == [] {
      assert [l][1..] == [];
    } else {
      assert (ls + [l])[1..] == ls[1..] + [l];
      JoinLinesAppend(ls[1..], l);
    }
  }

  /** A later line for the same key wins. */
  function EnvOf(lines: seq<string>): map<string, string> {
    if lines == [] then map[]
    else
      var l := lines[|lines| - 1];
      var before := EnvOf(lines[..|lines| - 1]);
      var eq := IndexOf(l, '=');
      if HasPrefix(l, ENV_PREFIX) && eq < |l| then before[l[..eq] := l[eq + 1..]] else before
  }

  method ParseEnv(dump: string) returns (out: map<string, string>)
    ensures out == EnvOf(Split(dump, '\n'))
  {
    out := map[];
    var lines := Split(dump, '\n');
    for i := 0 to |lines|
      invariant out == EnvOf(lines[..i])
    {
      var line := lines[i];
      assert lines[..i + 1][..i] == lines[..i];
      if !HasPrefix(line, ENV_PREFIX) { continue; }
      var eq := IndexOf(line, '=');
      if eq == |line| { continue; }
      out := out[line[..eq] := line[eq + 1..]];
    }
    assert lines[..|lines|] == lines;
  }

  /** `\d{4}-\d{2}-\d{2}T\d{2}:\d{2}:\d{2}(\.\d+)?Z`: the UTC form of RFC 3339 section 5.6. */
  predicate Rfc3339Utc(s: string) {
    && |s| >= 20
    && (forall i :: 0 <= i < 19 && i != 4 && i != 7 && i != 10 && i != 13 && i != 16 ==> IsDigit(s[i]))
    && s[4] == '-' && s[7] == '-' && s[10] == 'T' && s[13] == ':' && s[16] == ':'
    && s[|s| - 1] == 'Z'
    && (|s| > 20 ==> |s| > 21 && s[19] == '.' && forall i :: 20 <= i < |s| - 1 ==> IsDigit(s[i]))
  }

  function NormalizeCreatedAt(raw: string): string { if Rfc3339Utc(raw) then raw else "" }

  function Val(env: map<string, string>, k: Key): string {
    TrimSpace(if Name(k) in env then env[Name(k)] else "")
  }

  /** The trimmed values of the eight variables. */
  datatype Fields = Fields(version: string, id: string, displayName: string, kind: string, workdir: string,
                           createdBy: string, createdAt: string, target: string)

  function FieldsOf(env: map<string, string>): Fields {
    Fields(Val(env, V), Val(env, ID), Val(env, DisplayName), Val(env, KindKey),
           Val(env, Workdir), Val(env, CreatedBy), Val(env, CreatedAt), Val(env, Target))
  }

  function FromFields(tmuxSession: string, f: Fields, pane: Pane, fallbackName: string): Session {
    var slug := TrimPrefix(tmuxSession, TMUX_PREFIX);
    if !IsManagedVersion(f.version) then
      var (state, url) := ClassifyPane(ClaudeBroker, pane);
      Session(slug, tmuxSession, ClaudeBroker, state, false, fallbackName, "", url, "", "", "", "")
    else
      var kind := ParseKind(f.kind);
      var (state, url) := ClassifyPane(kind, pane);
      Session(slug, tmuxSession, kind, state, true, if f.displayName == "" then fallbackName else f.displayName,
              f.workdir, url, f.id, f.createdBy, NormalizeCreatedAt(f.createdAt), f.target)
  }

  /** `fallbackName` is what the optional display fallback gives for the slug ("" without one). */
  function ParseSession(tmuxSession: string, env: map<string, string>, pane: Pane, fallbackName: string): Session {
    FromFields(tmuxSession, FieldsOf(env), pane, fallbackName)
  }

  // ---------------------------------------------------------------- the round trip

  /** `l` is the line of one of the pairs. */
  ghost predicate LineOf(l: string, ps: seq<Pair>) {
    exists p <- ps :: l == Line(p)
  }

  /** A dump of a session's environment: the metadata lines in any order among any
      other lines, of which none carries the prefix. */
  ghost predicate IsDump(lines: seq<string>, ps: seq<Pair>) {
    && (forall l <- lines :: if HasPrefix(l, ENV_PREFIX) then LineOf(l, ps) else '\n' !in l)
    && (forall p <- ps :: Line(p) in lines)
  }

  /** The raw dump, filtered and parsed the way a session is read. */
  function Reread(lines: seq<string>): map<string, string> {
    EnvOf(Split(JoinLines(Keep(Split(JoinLines(lines), '\n'))), '\n'))
  }

  predicate OneValuePerKey(ps: seq<Pair>) {
    forall p <- ps, q <- ps :: p.key == q.key ==> p == q
  }

  /** What one key should read as. */
  function Written(m: Metadata, k: Key): string {
    match k
    case V => "2"
    case ID => m.id
    case DisplayName => m.displayName
    case KindKey => KindText(m.kind)
    case Workdir => m.workdir
    case CreatedBy => m.createdBy
    case CreatedAt => m.createdAt
    case Target => m.target
  }

  lemma SuffixHasNoEquals(k: Key)
    ensures '=' !in Suffix(k)
  {
    match k
    case V =>
    case ID =>
    case DisplayName =>
    case KindKey =>
    case Workdir =>
    case CreatedBy =>
    case CreatedAt =>
    case Target =>
  }

  /** A line whose value has no control character is a single line. */
  lemma LineIsOneLine(p: Pair)
    requires !HasControlChars(p.value)
    ensures '\n' !in Line(p)
  {
    assert IsControl('\n');
    assert '\n' !in ENV_PREFIX;
    match p.key
    case V =>
    case ID =>
    case DisplayName =>
    case KindKey =>
    case Workdir =>
    case CreatedBy =>
    case CreatedAt =>
    case Target =>
  }

  lemma NamesDiffer(a: Key, b: Key)
    ensures Name(a) == Name(b) ==> a == b
  {
    if Name(a) == Name(b) {
      assert Name(a)[|ENV_PREFIX|..] == Suffix(a) && Name(b)[|ENV_PREFIX|..] == Suffix(b);
      SuffixesDiffer(a, b);
    }
  }

  lemma SuffixesDiffer(a: Key, b: Key)
    requires Suffix(a) == Suffix(b)
    ensures a == b
  {
    assert Suffix(CreatedBy)[8] == 'B' && Suffix(CreatedAt)[8] == 'A';
  }

  /** A metadata line is taken apart at the `=` that follows its name. */
  lemma LineParts(p: Pair)
    ensures HasPrefix(Line(p), ENV_PREFIX)
    ensures IndexOf(Line(p), '=') == |Name(p.key)| < |Line(p)|
    ensures Line(p)[..|Name(p.key)|] == Name(p.key) && Line(p)[|Name(p.key)| + 1..] == p.value
  {
    SuffixHasNoEquals(p.key);
    assert '=' !in ENV_PREFIX;
    IndexOfPrefix(Name(p.key), p.value, '=');
    assert Line(p) == Name(p.key) + ['='] + p.value;
    assert Line(p)[..|ENV_PREFIX|] == ENV_PREFIX;
  }

  lemma {:induction false} KeepMembers(lines: seq<string>)
    ensures forall l :: l in Keep(lines) <==> l in lines && HasPrefix(l, ENV_PREFIX)
  {
    if lines != [] {
      KeepMembers(lines[..|lines| - 1]);
      assert lines == lines[..|lines| - 1] + [lines[|lines| - 1]];
    }
  }

  /** One more line of a pair sets that pair. */
  lemma EnvOfLast(front: seq<string>, q: Pair)
    ensures EnvOf(front + [Line(q)]) == EnvOf(front)[Name(q.key) := q.value]
  {
    LineParts(q);
    assert (front + [Line(q)])[..|front|] == front;
  }

  lemma SameLineSameKey(p: Pair, q: Pair)
    requires Line(p) == Line(q)
    ensures p.key == q.key
  {
    LineParts(p);
    LineParts(q);
    NamesDiffer(p.key, q.key);
  }

  /** `env` holds the pairs among `ps` whose line is one of `lines`, and no other key. */
  ghost predicate Holds(env: map<string, string>, lines: seq<string>, ps: seq<Pair>) {
    && (forall p <- ps :: Line(p) in lines ==> Name(p.key) in env && env[Name(p.key)] == p.value)
    && (forall name <- env :: exists p <- ps :: name == Name(p.key))
  }

  lemma HoldsOneMore(env: map<string, string>, front: seq<string>, ps: seq<Pair>, q: Pair)
    requires Holds(env, front, ps) && OneValuePerKey(ps) && q in ps
    ensures Holds(env[Name(q.key) := q.value], front + [Line(q)], ps)
  {
    var more := env[Name(q.key) := q.value];
    forall p | p in ps && Line(p) in front + [Line(q)]
      ensures Name(p.key) in more && more[Name(p.key)] == p.value
    {
      NamesDiffer(p.key, q.key);
      if Line(p) == Line(q) { SameLineSameKey(p, q); }
    }
  }

  /** Reading lines that all come from one set of pairs gives back exactly those pairs. */
  lemma {:induction false} EnvOfPairs(lines: seq<string>, ps: seq<Pair>)
    requires forall l <- lines :: LineOf(l, ps)
    requires OneValuePerKey(ps)
    ensures Holds(EnvOf(lines), lines, ps)
  {
    if lines != [] {
      var front, l := lines[..|lines| - 1], lines[|lines| - 1];
      assert lines == front + [l] && l in lines;
      EnvOfPairs(front, ps);
      var q :| q in ps && l == Line(q);
      EnvOfLast(front, q);
      HoldsOneMore(EnvOf(front), front, ps, q);
    }
  }

  lemma DumpLinesAreSingle(lines: seq<string>, ps: seq<Pair>)
    requires SingleLine(ps) && IsDump(lines, ps)
    ensures forall l <- lines :: '\n' !in l
  {
    forall l | l in lines ensures '\n' !in l {
      if HasPrefix(l, ENV_PREFIX) {
        var p :| p in ps && l == Line(p);
        LineIsOneLine(p);
      }
    }
  }

  /** Filtering and parsing a dump of single-line pairs reads exactly the pairs. */
  lemma RereadPairs(lines: seq<string>, ps: seq<Pair>)
    requires SingleLine(ps) && IsDump(lines, ps) && OneValuePerKey(ps)
    ensures forall p <- ps :: Name(p.key) in Reread(lines) && Reread(lines)[Name(p.key)] == p.value
    ensures forall name <- Reread(lines) :: exists p <- ps :: name == Name(p.key)
  {
    var kept := Keep(lines);
    DumpLinesAreSingle(lines, ps);
    KeepMembers(lines);
    SplitJoinLines(lines);
    KeepAppend(lines, "");
    SplitJoinLines(kept);
    EnvDropsEmpty(kept);
    assert Keep(lines + [""]) == kept;
    assert Reread(lines) == EnvOf(kept);
    EnvOfPairs(kept, ps);
    assert Holds(Reread(lines), kept, ps);
    forall p | p in ps ensures Line(p) in kept { LineParts(p); }
  }

  lemma PairIsWritten(m: Metadata, i: nat)
    requires i < |Pairs(m)|
    ensures Pairs(m)[i] == Pair(Pairs(m)[i].key, Written(m, Pairs(m)[i].key))
    ensures Pairs(m)[i].key == Target ==> m.target != ""
  {
  }

  lemma PairsAreFunctional(m: Metadata)
    ensures OneValuePerKey(Pairs(m))
    ensures m.target == "" ==> forall p <- Pairs(m) :: p.key != Target
  {
    var ps := Pairs(m);
    forall i | 0 <= i < |ps|
      ensures ps[i] == Pair(ps[i].key, Written(m, ps[i].key)) && (ps[i].key == Target ==> m.target != "")
    {
      PairIsWritten(m, i);
    }
  }

  /** Whatever else the dump holds, each key reads back as the value written for it. */
  lemma {:induction false} ReadBack(m: Metadata, lines: seq<string>, k: Key)
    requires SingleLine(Pairs(m)) && IsDump(lines, Pairs(m))
    ensures Val(Reread(lines), k) == TrimSpace(Written(m, k))
  {
    var ps := Pairs(m);
    PairsAreFunctional(m);
    RereadPairs(lines, ps);
    if k != Target || m.target != "" {
      PairOf(m, k);
    } else if Name(k) in Reread(lines) {
      var q :| q in ps && Name(k) == Name(q.key);
      NamesDiffer(k, q.key);
    }
  }

  lemma PairOf(m: Metadata, k: Key)
    requires k == Target ==> m.target != ""
    ensures Pair(k, Written(m, k)) in Pairs(m)
  {
    var ps := Pairs(m);
    match k
    case V => assert ps[0] == Pair(k, Written(m, k));
    case ID => assert ps[1] == Pair(k, Written(m, k));
    case DisplayName => assert ps[2] == Pair(k, Written(m, k));
    case KindKey => assert ps[3] == Pair(k, Written(m, k));
    case Workdir => assert ps[4] == Pair(k, Written(m, k));
    case CreatedBy => assert ps[5] == Pair(k, Written(m, k));
    case CreatedAt => assert ps[6] == Pair(k, Written(m, k));
    case Target => assert ps[7] == Pair(k, Written(m, k));
  }

  lemma EnvDropsEmpty(lines: seq<string>)
    ensures EnvOf(lines + [""]) == EnvOf(lines)
  {
    assert (lines + [""])[..|lines|] == lines;
  }

  lemma KindTextParses(k: Kind)
    requires IsValidKind(k)
    ensures ParseKind(TrimSpace(KindText(k))) == k
  {
    TrimSpaceFixed(KindText(k));
  }

  lemma VersionIsManaged()
    ensures IsManagedVersion(TrimSpace("2"))
  {
    var v := "2";
    TrimSpaceFixed(v);
    assert v[..0] == "" && DigitsValue(v) == 2;
  }

  /** The session a stamped metadata set stands for. */
  function Expected(m: Metadata, slug: string, pane: Pane, fallbackName: string): Session {
    var name, created := TrimSpace(m.displayName), TrimSpace(m.createdAt);
    Session(slug, TMUX_PREFIX + slug, m.kind, ClassifyPane(m.kind, pane).0, true,
            if name == "" then fallbackName else name,
            TrimSpace(m.workdir), ClassifyPane(m.kind, pane).1, TrimSpace(m.id), TrimSpace(m.createdBy),
            if Rfc3339Utc(created) then created else "", TrimSpace(m.target))
  }

  /** The round trip. Whenever the metadata is accepted, a session stamped with it and read
      back from any dump that contains it is managed, keeps its slug and kind, and has every
      other field equal to the trimmed original (a creation time only if it is a UTC RFC 3339
      time), so no value can forge another key. */
  lemma {:induction false} RoundTrip(m: Metadata, slug: string, lines: seq<string>, pane: Pane, fallbackName: string)
    requires IsValidKind(m.kind)
    requires SingleLine(Pairs(m)) && IsDump(lines, Pairs(m))
    ensures ParseSession(TMUX_PREFIX + slug, Reread(lines), pane, fallbackName) == Expected(m, slug, pane, fallbackName)
  {
    var env := Reread(lines);
    forall k: Key ensures Val(env, k) == TrimSpace(Written(m, k)) { ReadBack(m, lines, k); }
    FieldsReadBack(m, env);
    FieldsGiveExpected(m, slug, pane, fallbackName);
  }

  function FieldsWritten(m: Metadata): Fields {
    Fields(TrimSpace("2"), TrimSpace(m.id), TrimSpace(m.displayName), TrimSpace(KindText(m.kind)),
           TrimSpace(m.workdir), TrimSpace(m.createdBy), TrimSpace(m.createdAt), TrimSpace(m.target))
  }

  lemma FieldsReadBack(m: Metadata, env: map<string, string>)
    requires forall k: Key :: Val(env, k) == TrimSpace(Written(m, k))
    ensures FieldsOf(env) == FieldsWritten(m)
  {
    assert Val(env, V) == TrimSpace("2");
    assert Val(env, KindKey) == TrimSpace(KindText(m.kind));
  }

  lemma FieldsGiveExpected(m: Metadata, slug: string, pane: Pane, fallbackName: string)
    requires IsValidKind(m.kind)
    ensures FromFields(TMUX_PREFIX + slug, FieldsWritten(m), pane, fallbackName) ==
              Expected(m, slug, pane, fallbackName)
  {
    KindTextParses(m.kind);
    VersionIsManaged();
    TrimPrefixOfConcat(TMUX_PREFIX, slug);
  }

  /** The single-line check is what the round trip rests on: a value holding a newline and a
      line for another key makes that key read as whatever the value says. */
  lemma NewlineForges(k: Key, victim: Key, original: string, forged: string)
    requires k != victim && '\n' !in original && '\n' !in forged
    ensures
      var lines := [Line(Pair(victim, original)), Line(Pair(k, "\n" + Line(Pair(victim, forged))))];
      Val(EnvOf(Split(JoinLines(lines), '\n')), victim) == TrimSpace(forged)
  {
    var a, b, c := Line(Pair(victim, original)), Line(Pair(k, "")), Line(Pair(victim, forged));
    var last := Line(Pair(k, "\n" + c));
    var lines, split := [a, last], [a, b, c];
    assert last == b + "\n" + c;
    JoinTwo(a, last);
    JoinTwo(b, c);
    assert split[1..] == [b, c];
    assert JoinLines(lines) == JoinLines(split);
    NameIsOneLine(victim);
    NameIsOneLine(k);
    SplitJoinLines(split);
    EnvDropsEmpty(split);
    assert split[..2] + [c] == split;
    LineParts(Pair(victim, forged));
  }

  lemma JoinTwo(a: string, b: string)
    ensures JoinLines([a, b]) == a + "\n" + (b + "\n")
  {
    var ls := [b];
    assert [a, b][1..] == ls && ls[1..] == [];
    assert JoinLines(ls) == b + "\n";
  }

  lemma NameIsOneLine(k: Key)
    ensures '\n' !in Name(k)
  {
    LineIsOneLine(Pair(k, ""));
    assert Line(Pair(k, "")) == Name(k) + "=" + "";
  }

  // ---------------------------------------------------------------- arguments and legacy sessions

  /** Each pair is handed to tmux as `-e` and its line, in order. */
  lemma {:induction false} ArgumentsAreLines(ps: seq<Pair>, i: nat)
    requires i < |ps|
    ensures |Arguments(ps)| == 2 * |ps| && Arguments(ps)[2 * i] == "-e"
    ensures Arguments(ps)[2 * i + 1] == Name(ps[i].key) + "=" + ps[i].value
  {
    var front := ps[..|ps| - 1];
    if i < |front| {
      ArgumentsAreLines(front, i);
    } else if front != [] {
      ArgumentsAreLines(front, 0);
    }
  }

  /** A session without a managed version is reported as unmanaged, and nothing in its environment
      shows: it reads as a claude-broker with the fallback name and no other metadata. */
  lemma UnmanagedShowsNothing(tmuxSession: string, env: map<string, string>, pane: Pane, fallbackName: string)
    requires !IsManagedVersion(TrimSpace(if "SHED_RC_V" in env then env["SHED_RC_V"] else ""))
    ensures var s := ParseSession(tmuxSession, env, pane, fallbackName);
            && !s.managed && s.kind == ClaudeBroker && s.displayName == fallbackName
            && (s.state, s.url) == ClassifyPane(ClaudeBroker, pane) && s.tmuxSession == tmuxSession
            && s.workdir == s.id == s.createdBy == s.createdAt == s.targetLabel == ""
  {
    assert Name(V) == "SHED_RC_V";
  }

  // ---------------------------------------------------------------- creation times

  predicate Digits(s: string, n: nat) { |s| == n && forall c <- s :: IsDigit(c) }

  function Day(y: string, m: string, d: string): string { y + "-" + m + "-" + d }

  function Clock(h: string, m: string, s: string): string { h + ":" + m + ":" + s }

  /** A date, a time of day, and what comes after its seconds. */
  datatype Stamp = Stamp(y: string, mo: string, d: string, h: string, mi: string, s: string, fraction: string)

  function StampText(t: Stamp): string {
    Day(t.y, t.mo, t.d) + "T" + Clock(t.h, t.mi, t.s) + (if t.fraction == "" then "" else "." + t.fraction) + "Z"
  }

  predicate ProperStamp(t: Stamp) {
    && Digits(t.y, 4) && Digits(t.mo, 2) && Digits(t.d, 2) && Digits(t.h, 2) && Digits(t.mi, 2) && Digits(t.s, 2)
    && Digits(t.fraction, |t.fraction|)
  }

  /** The creation times that are kept are exactly the texts built from digits this way. */
  lemma Rfc3339Exactly(text: string)
    ensures Rfc3339Utc(text) <==> exists t :: ProperStamp(t) && text == StampText(t)
  {
    if Rfc3339Utc(text) {
      var t := Taken(text);
      TakenIsProper(text);
      TakenIsText(text);
    }
    forall t | ProperStamp(t) && text == StampText(t) ensures Rfc3339Utc(text) { StampIsAccepted(t); }
  }

  function Taken(text: string): Stamp
    requires |text| >= 20
  {
    Stamp(text[..4], text[5..7], text[8..10], text[11..13], text[14..16], text[17..19],
          if |text| > 20 then text[20..|text| - 1] else "")
  }

  lemma TakenIsProper(text: string)
    requires Rfc3339Utc(text)
    ensures ProperStamp(Taken(text))
  {
  }

  lemma TakenIsText(text: string)
    requires Rfc3339Utc(text)
    ensures StampText(Taken(text)) == text
  {
    var t := Taken(text);
    assert Day(t.y, t.mo, t.d) == text[..10];
    assert Clock(t.h, t.mi, t.s) == text[11..19];
    assert text[..10] + "T" + text[11..19] == text[..19];
    if |text| > 20 {
      assert "." + t.fraction == text[19..|text| - 1];
      assert text[..19] + text[19..|text| - 1] + "Z" == text;
    } else {
      assert text[..19] + "" + "Z" == text;
    }
  }

  lemma DayAt(y: string, m: string, d: string)
    requires Digits(y, 4) && Digits(m, 2) && Digits(d, 2)
    ensures var t := Day(y, m, d);
            |t| == 10 && t[4] == '-' && t[7] == '-' && forall k :: 0 <= k < 10 && k != 4 && k != 7 ==> IsDigit(t[k])
  {
  }

  lemma ClockAt(h: string, m: string, s: string)
    requires Digits(h, 2) && Digits(m, 2) && Digits(s, 2)
    ensures var t := Clock(h, m, s);
            |t| == 8 && t[2] == ':' && t[5] == ':' && forall k :: 0 <= k < 8 && k != 2 && k != 5 ==> IsDigit(t[k])
  {
  }

  lemma StampIsAccepted(t: Stamp)
    requires ProperStamp(t)
    ensures Rfc3339Utc(StampText(t))
  {
    DayAt(t.y, t.mo, t.d);
    ClockAt(t.h, t.mi, t.s);
    JoinedIsAccepted(Day(t.y, t.mo, t.d), Clock(t.h, t.mi, t.s), t.fraction);
  }

  lemma JoinedIsAccepted(day: string, clock: string, fraction: string)
    requires |day| == 10 && day[4] == '-' && day[7] == '-'
    requires forall k :: 0 <= k < 10 && k != 4 && k != 7 ==> IsDigit(day[k])
    requires |clock| == 8 && clock[2] == ':' && clock[5] == ':'
    requires forall k :: 0 <= k < 8 && k != 2 && k != 5 ==> IsDigit(clock[k])
    requires forall c <- fraction :: IsDigit(c)
    ensures Rfc3339Utc(day + "T" + clock + (if fraction == "" then "" else "." + fraction) + "Z")
  {
    var tail := if fraction == "" then "" else "." + fraction;
    var text := day + "T" + clock + tail + "Z";
    forall k | 0 <= k < 19
      ensures text[k] == if k < 10 then day[k] else if k == 10 then 'T' else clock[k - 11]
    {
    }
    if fraction != "" {
      assert text[19] == '.';
      forall k | 20 <= k < |text| - 1 ensures IsDigit(text[k]) {
        assert text[k] == fraction[k - 20] && fraction[k - 20] in fraction;
      }
    }
  }
}
