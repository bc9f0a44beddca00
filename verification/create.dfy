/** The checks of Create in `internal/rc/ops.go`, up to the moment tmux starts the session, and
    what they secure for the command line and for the metadata. */
module Creation {
  import opened Basics
  import opened Shell
  import opened RC
  import opened Meta

  const TOOL_NAME := "shed-ext-rc"

  datatype Options = Options(
    kind: Kind, displayName: string, slug: string, workdir: string, createdBy: string,
    target: string, permissionMode: string, prompt: string, interactiveShell: bool)

  /** What the surroundings supply: two environment variables ("" when unset), a random slug if
      the generator works, a fresh id and the current UTC time as text. */
  datatype Surroundings = Surroundings(
    workspace: string, home: string, randomSlug: Option<string>, newID: string, now: string)

  datatype CreateError = BadArgs | NoRandom

  /** What is handed to `tmux new-session`, and the prompt to deliver later. */
  datatype Launch = Launch(
    name: string, slug: string, metadata: Metadata, envArgs: seq<string>, command: string, prompt: string)

  predicate SlugChar(c: char) { 'a' <= c <= 'z' || IsDigit(c) }

  /** `[a-z0-9](?:[a-z0-9-]{0,30}[a-z0-9])?` */
  predicate ValidCallerSlug(s: string) {
    && 1 <= |s| <= 32 && SlugChar(s[0]) && SlugChar(s[|s| - 1])
    && forall c <- s :: SlugChar(c) || c == '-'
  }

  function FirstNonEmpty(a: string, b: string, c: string): string {
    if a != "" then a else if b != "" then b else c
  }

  function SlugOf(o: Options, env: Surroundings): string {
    if o.slug != "" then o.slug else if env.randomSlug.Some? then env.randomSlug.value else ""
  }

  function MetadataOf(o: Options, env: Surroundings): Metadata {
    Metadata(env.newID, FirstNonEmpty(o.displayName, SlugOf(o, env), ""), o.kind,
             FirstNonEmpty(o.workdir, env.workspace, env.home), FirstNonEmpty(o.createdBy, TOOL_NAME, ""),
             env.now, o.target)
  }

  /** The prompt, if any, fits the kind and is safe to type; so does the permission mode. */
  predicate ChoicesOk(o: Options) {
    && IsValidKind(o.kind)
    && (o.prompt != "" ==> AcceptsTypedInput(o.kind) && !HasUnsafePromptChars(NormalizeNewlines(o.prompt)))
    && (o.permissionMode != "" ==> IsClaudeKind(o.kind) && ValidPermissionMode(o.permissionMode))
  }

  predicate NamesOk(o: Options, env: Surroundings) {
    && (if o.slug == "" then env.randomSlug.Some? else ValidCallerSlug(o.slug))
    && FirstNonEmpty(o.workdir, env.workspace, env.home) != ""
  }

  /** The arguments Create accepts. */
  predicate Acceptable(o: Options, env: Surroundings) {
    ChoicesOk(o) && NamesOk(o, env) && SingleLine(Pairs(MetadataOf(o, env)))
  }

  method CheckChoices(o: Options) returns (prompt: Option<string>)
    ensures prompt == if ChoicesOk(o) then Some(NormalizeNewlines(o.prompt)) else None
  {
    if !IsValidKind(o.kind) { return None; }
    var text := o.prompt;
    if text != "" {
      if !AcceptsTypedInput(o.kind) { return None; }
      text := NormalizeNewlines(text);
      if HasUnsafePromptChars(text) { return None; }
    }
    if o.permissionMode != "" {
      if !IsClaudeKind(o.kind) { return None; }
      if !ValidPermissionMode(o.permissionMode) { return None; }
    }
    return Some(text);
  }

  method FillIn(o: Options, env: Surroundings) returns (r: Result<Metadata, CreateError>)
    ensures r == if NamesOk(o, env) then Ok(MetadataOf(o, env))
                 else if o.slug == "" && env.randomSlug.None? then Err(NoRandom) else Err(BadArgs)
  {
    var slug := o.slug;
    if slug == "" {
      if env.randomSlug.None? { return Err(NoRandom); }
      slug := env.randomSlug.value;
    } else if !ValidCallerSlug(slug) {
      return Err(BadArgs);
    }
    var workdir := FirstNonEmpty(o.workdir, env.workspace, env.home);
    if workdir == "" { return Err(BadArgs); }
    var displayName := o.displayName;
    if displayName == "" { displayName := slug; }
    var createdBy := o.createdBy;
    if createdBy == "" { createdBy := TOOL_NAME; }
    return Ok(Metadata(env.newID, displayName, o.kind, workdir, createdBy, env.now, o.target));
  }

  /** Runs the checks in their order; what fails first decides the error. */
  method Prepare(o: Options, env: Surroundings) returns (r: Result<Launch, CreateError>)
    ensures r.Ok? <==> Acceptable(o, env)
    ensures r.Ok? ==>
              var m := MetadataOf(o, env);
              r.value == Launch(TMUX_PREFIX + SlugOf(o, env), SlugOf(o, env), m, Arguments(Pairs(m)),
                                InnerCommand(o.kind, m.displayName, o.permissionMode, o.interactiveShell),
                                NormalizeNewlines(o.prompt))
    ensures r.Ok? ==>
              var m := r.value.metadata;
              && r.value.slug == (if o.slug != "" then o.slug else env.randomSlug.value)
              && m.workdir == (if o.workdir != "" then o.workdir
                               else if env.workspace != "" then env.workspace else env.home)
              && m.displayName == (if o.displayName != "" then o.displayName else r.value.slug)
              && m.createdBy == (if o.createdBy != "" then o.createdBy else "shed-ext-rc")
              && m.id == env.newID && m.kind == o.kind && m.createdAt == env.now && m.target == o.target
    ensures r.Err? && r.error.NoRandom? <==> ChoicesOk(o) && o.slug == "" && env.randomSlug.None?
  {
    var prompt := CheckChoices(o);
    if prompt.None? { return Err(BadArgs); }
    var filled := FillIn(o, env);
    if filled.Err? { return Err(filled.error); }
    var metadata := filled.value;
    var envArgs := BuildEnvArgs(metadata);
    if envArgs.Err? { return Err(BadArgs); }
    var inner := InnerCommand(o.kind, metadata.displayName, o.permissionMode, o.interactiveShell);
    return Ok(Launch(TMUX_PREFIX + SlugOf(o, env), SlugOf(o, env), metadata, envArgs.value, inner, prompt.value));
  }

  /** Whatever a caller passes, once it is accepted the shell reads the command as exactly the
      intended arguments, with the display name as one word and directly or through
      `bash -ic`. */
  lemma AcceptedCommandIsIntended(o: Options, env: Surroundings)
    requires Acceptable(o, env)
    ensures var name := MetadataOf(o, env).displayName;
            var argv := Argv(o.kind, name, o.permissionMode);
            if o.interactiveShell && IsClaudeKind(o.kind) then
              exists cmd ::
                && Tokenize(InnerCommand(o.kind, name, o.permissionMode, true)) == Some(["bash", "-ic", cmd])
                && Tokenize(cmd) == Some(argv)
            else Tokenize(InnerCommand(o.kind, name, o.permissionMode, o.interactiveShell)) == Some(argv)
  {
    var name := MetadataOf(o, env).displayName;
    if o.interactiveShell && IsClaudeKind(o.kind) {
      InteractiveReadsAsArgv(o.kind, name, o.permissionMode);
    } else {
      CommandReadsAsArgv(o.kind, name, o.permissionMode);
    }
  }

  /** And every later probe of that session reports it as managed, with its slug, kind and the
      trimmed metadata `m` it was created with. */
  lemma {:induction false} AcceptedSessionReadsBack(o: Options, env: Surroundings, m: Metadata, lines: seq<string>,
      pane: Pane, fallbackName: string)
    requires m == MetadataOf(o, env) && ChoicesOk(o) && NamesOk(o, env) && SingleLine(Pairs(m))
    requires IsDump(lines, Pairs(m))
    ensures Acceptable(o, env)
    ensures var s := ParseSession(TMUX_PREFIX + SlugOf(o, env), Reread(lines), pane, fallbackName);
            && s.createdBy == TrimSpace(FirstNonEmpty(o.createdBy, TOOL_NAME, ""))
            && s.createdAt == (if Rfc3339Utc(TrimSpace(env.now)) then TrimSpace(env.now) else "")
            && s.managed && s.kind == o.kind && s.slug == SlugOf(o, env) && s.id == TrimSpace(env.newID)
            && s.workdir == TrimSpace(FirstNonEmpty(o.workdir, env.workspace, env.home))
            && s.targetLabel == TrimSpace(o.target)
            && (s.displayName == TrimSpace(m.displayName)
                || (TrimSpace(o.displayName) == "" && s.displayName == fallbackName))
  {
    RoundTrip(m, SlugOf(o, env), lines, pane, fallbackName);
  }

  // ---------------------------------------------------------------- the checks, spelled out

  /** A character that may appear in a prompt: a line break, a tab, or anything that is neither a
      C0 or C1 control character nor DEL. */
  predicate Typable(c: char) {
    c as int == 10 || c as int == 9 || (c as int >= 32 && !(127 <= c as int <= 159))
  }

  /** `[a-z0-9]` */
  predicate LowerOrDigit(c: char) { 97 <= c as int <= 122 || 48 <= c as int <= 57 }

  /** A text without line breaks or other control characters. */
  predicate OneLine(s: string) {
    forall c <- s :: c as int >= 32 && c as int != 127
  }

  lemma PromptChecked(text: string)
    ensures HasUnsafePromptChars(text) <==> exists i :: 0 <= i < |text| && !Typable(text[i])
  {
    if i :| 0 <= i < |text| && !Typable(text[i]) { assert text[i] in text; }
  }

  lemma SlugChecked(s: string)
    ensures ValidCallerSlug(s) <==>
            && 1 <= |s| <= 32 && LowerOrDigit(s[0]) && LowerOrDigit(s[|s| - 1])
            && forall i :: 0 <= i < |s| ==> LowerOrDigit(s[i]) || s[i] == '-'
  {
    if forall i :: 0 <= i < |s| ==> LowerOrDigit(s[i]) || s[i] == '-' {
      forall c | c in s ensures SlugChar(c) || c == '-' {
        var i :| 0 <= i < |s| && s[i] == c;
      }
    }
    if ValidCallerSlug(s) {
      forall i | 0 <= i < |s| ensures LowerOrDigit(s[i]) || s[i] == '-' { assert s[i] in s; }
    }
  }

  /** What Create accepts, in the terms of its options: a known kind; a prompt only where input
      can be typed, and only with typable characters once its line endings are normalised; one
      of the six modes, and only for claude; a well-formed slug, or a generated one; some
      directory; and one-line values throughout. */
  lemma AcceptableExactly(o: Options, env: Surroundings)
    ensures Acceptable(o, env) <==>
      var prompt := OneLineEnding(o.prompt);
      && (o.kind.ClaudeBroker? || o.kind.ClaudeRC? || o.kind.PlainShell?)
      && (o.prompt != "" ==> !o.kind.ClaudeBroker? && forall i :: 0 <= i < |prompt| ==> Typable(prompt[i]))
      && (o.permissionMode != "" ==>
            && !o.kind.PlainShell?
            && o.permissionMode in ["default", "acceptEdits", "plan", "auto", "dontAsk", "bypassPermissions"])
      && (if o.slug == "" then env.randomSlug.Some?
          else
            && 1 <= |o.slug| <= 32 && LowerOrDigit(o.slug[0]) && LowerOrDigit(o.slug[|o.slug| - 1])
            && forall i :: 0 <= i < |o.slug| ==> LowerOrDigit(o.slug[i]) || o.slug[i] == '-')
      && (o.workdir != "" || env.workspace != "" || env.home != "")
      && forall p <- Pairs(MetadataOf(o, env)) :: OneLine(p.value)
  {
    NormalizeIsOnePass(o.prompt);
    PromptChecked(NormalizeNewlines(o.prompt));
    if o.slug != "" { SlugChecked(o.slug); }
    forall p | p in Pairs(MetadataOf(o, env)) ensures OneLine(p.value) <==> !HasControlChars(p.value) {
    }
  }
}
