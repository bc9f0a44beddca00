/** The side-effect-free core of `internal/rc/rc.go`: text checks, newline
    normalisation, and the classification of a captured pane. */
module RC {
  import opened Basics
  import opened Shell

  // ---------------------------------------------------------------- text

  predicate IsControl(c: char) { c <= '\U{1f}' || c == '\U{7f}' }

  predicate HasControlChars(s: string) { exists c <- s :: IsControl(c) }

  /** Newline and tab are allowed in a prompt; every other C0, DEL and C1 character is not. */
  predicate HasUnsafePromptChars(s: string) {
    exists c <- s :: c != '\n' && c != '\t' && (IsControl(c) || '\U{80}' <= c <= '\U{9f}')
  }

  /** Two passes: CRLF to LF, then every remaining CR to LF. */
  function NormalizeNewlines(s: string): string {
    ReplaceAll(ReplaceAll(s, "\r\n", "\n"), "\r", "\n")
  }

  /** The reference: one pass, in which CRLF and a lone CR each become one LF. */
  function OneLineEnding(s: string): string
    decreases |s|
  {
    if s == "" then ""
    else if s[0] == '\r' then
      "\n" + OneLineEnding(if |s| > 1 && s[1] == '\n' then s[2..] else s[1..])
    else [s[0]] + OneLineEnding(s[1..])
  }

  lemma ReplaceCrCons(c: char, t: string)
    ensures ReplaceAll([c] + t, "\r", "\n") == [if c == '\r' then '\n' else c] + ReplaceAll(t, "\r", "\n")
  {
    assert ([c] + t)[1..] == t && ([c] + t)[..1] == [c];
  }

  /** The two passes compute the one-pass reference, on every string. */
  lemma {:induction false} NormalizeIsOnePass(s: string)
    ensures NormalizeNewlines(s) == OneLineEnding(s)
    decreases |s|
  {
    if s != "" {
      if |s| > 1 && s[0] == '\r' && s[1] == '\n' {
        NormalizeIsOnePass(s[2..]);
        assert s[..2] == "\r\n";
        ReplaceCrCons('\n', ReplaceAll(s[2..], "\r\n", "\n"));
      } else {
        NormalizeIsOnePass(s[1..]);
        assert |s| > 1 ==> s[..2] == [s[0], s[1]];
        assert !HasPrefix(s, "\r\n");
        ReplaceCrCons(s[0], ReplaceAll(s[1..], "\r\n", "\n"));
      }
    }
  }

  /** A text without CR is left alone. */
  lemma {:induction false} NoCrUnchanged(s: string)
    requires '\r' !in s
    ensures OneLineEnding(s) == s
  {
    if s != "" { NoCrUnchanged(s[1..]); }
  }

  lemma {:induction false} OneLineEndingHasNoCr(s: string)
    ensures '\r' !in OneLineEnding(s)
    decreases |s|
  {
    if s != "" {
      OneLineEndingHasNoCr(if s[0] == '\r' && |s| > 1 && s[1] == '\n' then s[2..] else s[1..]);
    }
  }

  /** No CR survives, and a second application changes nothing. */
  lemma NormalizeIdempotent(s: string)
    ensures '\r' !in NormalizeNewlines(s)
    ensures NormalizeNewlines(NormalizeNewlines(s)) == NormalizeNewlines(s)
  {
    NormalizeIsOnePass(s);
    OneLineEndingHasNoCr(s);
    NormalizeIsOnePass(NormalizeNewlines(s));
    NoCrUnchanged(NormalizeNewlines(s));
  }

  // ---------------------------------------------------------------- versions and kinds

  const MAX_INT := 0x7fff_ffff_ffff_ffff
  const MIN_MANAGED_VERSION := 2

  /** `^\d+$`, then strconv.Atoi, which fails beyond a 64-bit int. */
  predicate IsManagedVersion(raw: string) {
    raw != "" && (forall c <- raw :: IsDigit(c)) && MIN_MANAGED_VERSION <= DigitsValue(raw) <= MAX_INT
  }

  function KindText(k: Kind): string {
    match k
    case ClaudeBroker => "claude-broker"
    case ClaudeRC => "claude-rc"
    case PlainShell => "shell"
    case UnknownKind(raw) => raw
  }

  predicate IsValidKind(k: Kind) { !k.UnknownKind? }

  predicate IsClaudeKind(k: Kind) { !k.PlainShell? }

  predicate AcceptsTypedInput(k: Kind) { !k.ClaudeBroker? }

  /** An unrecognised value reads as claude-broker. */
  function ParseKind(raw: string): Kind {
    if raw == "claude-rc" then ClaudeRC else if raw == "shell" then PlainShell else ClaudeBroker
  }

  // ---------------------------------------------------------------- panes

  /** What the fixed regular expressions find in one captured pane. The two URLs are
      "" when their expression does not match. */
  datatype Pane = Pane(
    blank: bool,
    notTrusted: bool, safetyCheck: bool, trustFolder: bool,
    needsAuth: bool,
    reconnecting: bool, connected: bool,
    rcConnecting: bool, rcActive: bool,
    bypassWarn: bool, bypassAccept: bool,
    brokerURL: string, replURL: string)

  datatype State = Starting | Ready | Reconnecting | NeedsTrust | NeedsAuth | Dead

  function ExtractURL(kind: Kind, pane: Pane): string {
    match kind
    case ClaudeBroker => pane.brokerURL
    case ClaudeRC => pane.replURL
    case _ => ""
  }

  predicate IsTrustPrompt(pane: Pane) { pane.notTrusted || pane.safetyCheck || pane.trustFolder }

  predicate IsBypassAcceptPrompt(pane: Pane) { pane.bypassWarn && pane.bypassAccept }

  function ClassifyPane(kind: Kind, pane: Pane): (State, string) {
    if !kind.PlainShell? && IsTrustPrompt(pane) then (NeedsTrust, ExtractURL(kind, pane))
    else if !kind.PlainShell? && pane.needsAuth then (NeedsAuth, ExtractURL(kind, pane))
    else
      match kind
      case ClaudeBroker =>
        var url := ExtractURL(ClaudeBroker, pane);
        if pane.reconnecting then (Reconnecting, url)
        else if pane.connected && url != "" then (Ready, url)
        else if url != "" then (Ready, url)
        else (Starting, "")
      case ClaudeRC =>
        var url := ExtractURL(ClaudeRC, pane);
        if pane.rcConnecting && url == "" then (Starting, "")
        else if pane.rcActive && url != "" then (Ready, url)
        else if url != "" then (Ready, url)
        else (Starting, "")
      case _ =>
        if !pane.blank then (Ready, "") else (Starting, "")
  }

  /** The URL a kind's panes show. */
  function URLOf(kind: Kind, pane: Pane): string {
    match kind
    case ClaudeBroker => pane.brokerURL
    case ClaudeRC => pane.replURL
    case _ => ""
  }

  /** One of the three forms of the trust prompt is showing. */
  predicate ShowsTrust(pane: Pane) { pane.notTrusted || pane.safetyCheck || pane.trustFolder }

  /** When a pane counts as ready, per kind: a shell as soon as it shows anything; a claude
      session exactly when it shows its URL and neither a trust nor a sign-in prompt (and,
      for the broker, is not reconnecting). A ready claude session always carries that URL,
      and a pane alone never reads as dead. */
  lemma ReadyExactly(kind: Kind, pane: Pane)
    requires IsValidKind(kind)
    ensures ClassifyPane(kind, pane).0.Ready? <==>
      if kind.PlainShell? then !pane.blank
      else !ShowsTrust(pane) && !pane.needsAuth && URLOf(kind, pane) != "" &&
           (kind.ClaudeBroker? ==> !pane.reconnecting)
    ensures ClassifyPane(kind, pane).0.Ready? && IsClaudeKind(kind) ==>
              ClassifyPane(kind, pane).1 == URLOf(kind, pane) != ""
    ensures !ClassifyPane(kind, pane).0.Dead?
  {
  }

  /** The other states: a trust prompt comes before everything else, a sign-in prompt next, and
      then reconnecting, which only a broker does; what is left and not ready is starting. Every
      state but starting carries the URL on the pane. */
  lemma PromptsComeFirst(kind: Kind, pane: Pane)
    requires IsValidKind(kind)
    ensures var (state, url) := ClassifyPane(kind, pane);
      var claude := !kind.PlainShell?;
      && (state.NeedsTrust? <==> claude && ShowsTrust(pane))
      && (state.NeedsAuth? <==> claude && !ShowsTrust(pane) && pane.needsAuth)
      && (state.Reconnecting? <==> kind.ClaudeBroker? && !ShowsTrust(pane) && !pane.needsAuth && pane.reconnecting)
      && url == (if state.Starting? then "" else URLOf(kind, pane))
  {
  }

  // ---------------------------------------------------------------- text, spelled out

  /** A managed version is any text of digits that stands for 2 or more and fits an int. */
  lemma ManagedExactly(n: nat, raw: string)
    ensures IsManagedVersion(NatText(n)) <==> 2 <= n <= 0x7fff_ffff_ffff_ffff
    ensures IsManagedVersion(raw) ==> raw != "" && forall c <- raw :: '0' <= c <= '9'
  {
    NatTextReads(n);
  }

  /** Each kind's own text reads as that kind, and any other text as claude-broker. */
  lemma ParseKindExactly(raw: string)
    ensures ParseKind("claude-broker") == ClaudeBroker && ParseKind("claude-rc") == ClaudeRC
    ensures ParseKind("shell") == PlainShell
    ensures raw != "claude-rc" && raw != "shell" ==> ParseKind(raw) == ClaudeBroker
  {
    assert |"claude-broker"| == 13 && |"claude-rc"| == 9 && |"shell"| == 5;
  }
}
