/** The command line `internal/rc/rc.go` hands to the shell, and the shell rules that
    must take it apart again. `Lex` is an independent reader: quoting as in sections
    2.2.1 (backslash) and 2.2.2 (single quotes) of the POSIX.1-2017 Shell Command
    Language, with every other unquoted character outside a small safe set refused outright,
    so a successful reading also shows that nothing is left unquoted by accident. */
module Shell {
  import opened Basics

  // ---------------------------------------------------------------- the printer

  datatype Kind = ClaudeBroker | ClaudeRC | PlainShell | UnknownKind(raw: string)

  /** `'` + s with each `'` replaced by `'\''` + `'`. */
  function ShellQuote(s: string): string {
    "'" + ReplaceAll(s, "'", "'\\''") + "'"
  }

  const PERMISSION_MODE_BYPASS := "bypassPermissions"

  predicate ValidPermissionMode(m: string) {
    m in ["default", "acceptEdits", "plan", "auto", "dontAsk", PERMISSION_MODE_BYPASS]
  }

  function InnerCommand(kind: Kind, displayName: string, permissionMode: string, interactiveShell: bool): string {
    if !kind.ClaudeBroker? && !kind.ClaudeRC? then "bash" + " " + "-l"
    else
      var cmd :=
        if kind.ClaudeBroker? then
          "claude" + " " + "remote-control" + " " + "--name" + " " + ShellQuote(displayName) +
          (if permissionMode != "" then " " + "--permission-mode" + " " + permissionMode else "") +
          " " + "--spawn" + " " + "same-dir"
        else if permissionMode != "" then
          "claude" + " " + "--remote-control" + " " + "--name" + " " + ShellQuote(displayName) +
          " " + "--permission-mode" + " " + permissionMode
        else
          "claude" + " " + "--name" + " " + ShellQuote(displayName) + " " + "/rc";
      if interactiveShell then "bash" + " " + "-ic" + " " + ShellQuote(cmd) else cmd
  }

  // ---------------------------------------------------------------- the reader

  predicate Blank(c: char) { c == ' ' || c == '\t' }

  /** Characters that stand for themselves when unquoted, wherever they occur. `Lex`
      handles quotes and blanks and refuses everything else it meets unquoted
      (operators, expansions, patterns, comments, newline). */
  predicate Plain(c: char) {
    'a' <= c <= 'z' || 'A' <= c <= 'Z' || '0' <= c <= '9' || c == '-' || c == '/' || c == '_' || c == '.'
  }

  /** The same by code point: letters, digits, hyphen, full stop, slash and underscore. */
  lemma PlainExactly(c: char)
    ensures var n := c as int;
            Plain(c) <==> 97 <= n <= 122 || 65 <= n <= 90 || 45 <= n <= 57 || n == 95
  {
  }

  predicate PlainWord(w: string) {
    w != "" && forall c <- w :: Plain(c)
  }

  /** Reads the words of one simple command. `word` is the word being built, if any;
      `quoted` says whether the reader is inside single quotes. */
  function Lex(s: string, quoted: bool, word: Option<string>): Option<seq<string>>
    requires quoted ==> word.Some?
    decreases |s|
  {
    if s == "" then
      if quoted then None
      else Some(if word.Some? then [word.value] else [])
    else
      var c := s[0];
      if quoted then
        if c == '\'' then Lex(s[1..], false, word)
        else Lex(s[1..], true, Some(word.value + [c]))
      else
        var sofar := if word.Some? then word.value else "";
        if c == '\'' then Lex(s[1..], true, Some(sofar))
        else if c == '\\' then
          if |s| == 1 then None
          else if s[1] == '\n' then Lex(s[2..], false, word)
          else Lex(s[2..], false, Some(sofar + [s[1]]))
        else if Blank(c) then
          var rest := Lex(s[1..], false, None);
          if word.None? then rest
          else if rest.None? then None
          else Some([word.value] + rest.value)
        else if Plain(c) then Lex(s[1..], false, Some(sofar + [c]))
        else None
  }

  function Tokenize(s: string): Option<seq<string>> { Lex(s, false, None) }

  // ---------------------------------------------------------------- what is intended

  function Argv(kind: Kind, displayName: string, permissionMode: string): seq<string> {
    match kind
    case ClaudeBroker =>
      ["claude", "remote-control", "--name", displayName] +
      (if permissionMode != "" then ["--permission-mode", permissionMode] else []) +
      ["--spawn", "same-dir"]
    case ClaudeRC =>
      if permissionMode != "" then
        ["claude", "--remote-control", "--name", displayName, "--permission-mode", permissionMode]
      else
        ["claude", "--name", displayName, "/rc"]
    case _ => ["bash", "-l"]
  }

  // ---------------------------------------------------------------- quoting is undone

  function Escaped(s: string): string { ReplaceAll(s, "'", "'\\''") }

  lemma EscapedStep(s: string)
    requires s != ""
    ensures Escaped(s) == (if s[0] == '\'' then "'\\''" else [s[0]]) + Escaped(s[1..])
  {
    assert s[..1] == [s[0]];
  }

  lemma LexClose(t: string, w: string)
    ensures Lex("'" + t, true, Some(w)) == Lex(t, false, Some(w))
  {
    assert ("'" + t)[1..] == t;
  }

  lemma LexInside(c: char, t: string, w: string)
    requires c != '\''
    ensures Lex([c] + t, true, Some(w)) == Lex(t, true, Some(w + [c]))
  {
    assert ([c] + t)[1..] == t;
  }

  /** Close, backslash-quote, reopen: the word grows by one quote character. */
  lemma LexEscape(t: string, w: string)
    ensures Lex("'\\''" + t, true, Some(w)) == Lex(t, true, Some(w + "'"))
  {
    var s1, s2 := "\\''" + t, "'" + t;
    assert "'\\''" + t == "'" + s1;
    LexClose(s1, w);
    assert s1[0] == '\\' && s1[1] == '\'' && s1[2..] == s2;
    assert Lex(s1, false, Some(w)) == Lex(s2, false, Some(w + ['\'']));
    assert s2[1..] == t;
  }

  /** Inside quotes, the escaped body adds exactly `s`, and the closing quote ends it. */
  lemma {:induction false} LexQuotedBody(s: string, rest: string, w: string)
    ensures Lex(Escaped(s) + ("'" + rest), true, Some(w)) == Lex(rest, false, Some(w + s))
    decreases |s|
  {
    if s == "" {
      LexClose(rest, w);
      assert Escaped(s) + ("'" + rest) == "'" + rest && w + s == w;
    } else {
      var tail := Escaped(s[1..]) + ("'" + rest);
      LexQuotedBody(s[1..], rest, w + [s[0]]);
      assert w + [s[0]] + s[1..] == w + s;
      EscapedStep(s);
      if s[0] == '\'' {
        assert Escaped(s) + ("'" + rest) == "'\\''" + tail;
        LexEscape(tail, w);
        assert w + "'" == w + [s[0]];
      } else {
        assert Escaped(s) + ("'" + rest) == [s[0]] + tail;
        LexInside(s[0], tail, w);
      }
    }
  }

  /** Wherever it stands, a quoted string extends the current word by exactly `s`. */
  lemma LexQuote(s: string, rest: string, word: Option<string>)
    ensures Lex(ShellQuote(s) + rest, false, word)
         == Lex(rest, false, Some((if word.Some? then word.value else "") + s))
  {
    var w := if word.Some? then word.value else "";
    assert (ShellQuote(s) + rest)[1..] == Escaped(s) + ("'" + rest);
    LexQuotedBody(s, rest, w);
  }

  /** A quoted string on its own is exactly one word, equal to the original. */
  lemma QuoteIsOneWord(s: string)
    ensures Tokenize(ShellQuote(s)) == Some([s])
  {
    LexQuote(s, "", None);
    assert ShellQuote(s) + "" == ShellQuote(s);
    assert "" + s == s;
  }

  // ---------------------------------------------------------------- plain words

  lemma {:induction false} LexPlain(p: string, rest: string, w: string)
    requires forall c <- p :: Plain(c)
    ensures Lex(p + rest, false, Some(w)) == Lex(rest, false, Some(w + p))
    decreases |p|
  {
    if p == "" {
      assert p + rest == rest && w + p == w;
    } else {
      assert Plain(p[0]);
      assert (p + rest)[0] == p[0] && (p + rest)[1..] == p[1..] + rest;
      LexPlain(p[1..], rest, w + [p[0]]);
      assert w + [p[0]] + p[1..] == w + p;
    }
  }

  lemma LexFirst(p: string, rest: string)
    requires PlainWord(p)
    ensures Lex(p + rest, false, None) == Lex(rest, false, Some(p))
  {
    assert Plain(p[0]);
    LexStartsWord(p[0], p[1..] + rest);
    assert [p[0]] + (p[1..] + rest) == p + rest;
    LexPlain(p[1..], rest, [p[0]]);
    assert [p[0]] + p[1..] == p;
  }

  lemma LexStartsWord(c: char, t: string)
    requires Plain(c)
    ensures Lex([c] + t, false, None) == Lex(t, false, Some([c]))
  {
    assert ([c] + t)[1..] == t;
    assert "" + [c] == [c];
  }

  function Prepend(ws: seq<string>, r: Option<seq<string>>): Option<seq<string>> {
    if r.None? then None else Some(ws + r.value)
  }

  /** Words, each followed by a blank. */
  function Leading(ws: seq<string>): string {
    if ws == [] then "" else ws[0] + " " + Leading(ws[1..])
  }

  lemma {:induction false} LexLeading(ws: seq<string>, rest: string)
    requires forall w <- ws :: PlainWord(w)
    ensures Lex(Leading(ws) + rest, false, None) == Prepend(ws, Lex(rest, false, None))
  {
    if ws == [] {
      assert Leading(ws) + rest == rest;
      if Lex(rest, false, None).Some? { assert [] + Lex(rest, false, None).value == Lex(rest, false, None).value; }
    } else {
      var tail := Leading(ws[1..]) + rest;
      LexLeading(ws[1..], rest);
      assert Leading(ws) + rest == ws[0] + (" " + tail);
      LexFirst(ws[0], " " + tail);
      assert (" " + tail)[1..] == tail;
      assert ws == [ws[0]] + ws[1..];
      if Lex(rest, false, None).Some? {
        assert [ws[0]] + (ws[1..] + Lex(rest, false, None).value) == ws + Lex(rest, false, None).value;
      }
    }
  }

  lemma LexLast(w: string)
    requires PlainWord(w)
    ensures Tokenize(w) == Some([w])
  {
    LexFirst(w, "");
    assert w + "" == w;
  }

  lemma LexQuotedThen(s: string, rest: string)
    ensures Lex(ShellQuote(s) + (" " + rest), false, None) == Prepend([s], Lex(rest, false, None))
  {
    LexQuote(s, " " + rest, None);
    assert (" " + rest)[1..] == rest;
    assert "" + s == s;
  }

  // ---------------------------------------------------------------- the whole command

  lemma ModeIsPlain(m: string)
    requires ValidPermissionMode(m)
    ensures PlainWord(m)
  {
  }

  lemma FixedWordsArePlain()
    ensures PlainWord("claude") && PlainWord("remote-control") && PlainWord("--remote-control")
    ensures PlainWord("--name") && PlainWord("--permission-mode") && PlainWord("--spawn")
    ensures PlainWord("same-dir") && PlainWord("/rc") && PlainWord("bash") && PlainWord("-l") && PlainWord("-ic")
  {
  }

  /** The words before the display name, those after it but the last, and the last. */
  function Before(kind: Kind, mode: string): seq<string> {
    if kind.ClaudeBroker? then ["claude", "remote-control", "--name"]
    else if mode != "" then ["claude", "--remote-control", "--name"]
    else ["claude", "--name"]
  }

  function After(kind: Kind, mode: string): seq<string> {
    (if mode != "" then ["--permission-mode"] else []) +
    (if kind.ClaudeBroker? then (if mode != "" then [mode] else []) + ["--spawn"] else [])
  }

  function Final(kind: Kind, mode: string): string {
    if kind.ClaudeBroker? then "same-dir" else if mode != "" then mode else "/rc"
  }

  lemma LeadingOf(ws: seq<string>)
    ensures |ws| == 1 ==> Leading(ws) == ws[0] + " "
    ensures |ws| == 2 ==> Leading(ws) == ws[0] + " " + ws[1] + " "
    ensures |ws| == 3 ==> Leading(ws) == ws[0] + " " + ws[1] + " " + ws[2] + " "
  {
    if |ws| > 0 { LeadingOf(ws[1..]); }
  }

  /** The text of a command is its words before the name, the quoted name, and the rest. */
  lemma CommandShape(kind: Kind, name: string, mode: string)
    requires kind.ClaudeBroker? || kind.ClaudeRC?
    ensures InnerCommand(kind, name, mode, false)
         == Leading(Before(kind, mode)) + (ShellQuote(name) + (" " + (Leading(After(kind, mode)) + Final(kind, mode))))
  {
    var q := ShellQuote(name);
    var before, after, final := Before(kind, mode), After(kind, mode), Final(kind, mode);
    LeadingOf(before);
    LeadingOf(after);
    if kind.ClaudeBroker? && mode != "" {
      Group3(Leading(before), q, "--permission-mode", mode, "--spawn", final);
    } else if kind.ClaudeBroker? {
      Group1(Leading(before), q, "--spawn", final);
    } else if mode != "" {
      Group1(Leading(before), q, "--permission-mode", mode);
    } else {
      Group0(Leading(before), q, final);
    }
  }

  lemma Group0(lead: string, q: string, z: string)
    ensures lead + q + " " + z == lead + (q + (" " + (Leading([]) + z)))
  {
  }

  lemma Group1(lead: string, q: string, y: string, z: string)
    ensures lead + q + " " + y + " " + z == lead + (q + (" " + (y + " " + z)))
    ensures lead + q + "" + " " + y + " " + z == lead + (q + (" " + (y + " " + z)))
  {
    assert lead + q + "" == lead + q;
  }

  lemma Group3(lead: string, q: string, v: string, w: string, y: string, z: string)
    ensures lead + q + (" " + v + " " + w) + " " + y + " " + z
         == lead + (q + (" " + (v + " " + w + " " + y + " " + z)))
  {
  }

  /** For every display name and every valid mode (or none), the shell reads the
      command as exactly the intended argument vector. */
  lemma CommandReadsAsArgv(kind: Kind, name: string, mode: string)
    requires mode == "" || ValidPermissionMode(mode)
    ensures Tokenize(InnerCommand(kind, name, mode, false)) == Some(Argv(kind, name, mode))
  {
    FixedWordsArePlain();
    if mode != "" { ModeIsPlain(mode); }
    if kind.ClaudeBroker? || kind.ClaudeRC? {
      var before, after, final := Before(kind, mode), After(kind, mode), Final(kind, mode);
      CommandShape(kind, name, mode);
      LexLeading(before, ShellQuote(name) + (" " + (Leading(after) + final)));
      LexQuotedThen(name, Leading(after) + final);
      LexLeading(after, final);
      LexLast(final);
      assert before + ([name] + (after + [final])) == Argv(kind, name, mode);
    } else {
      BashReads("-l");
    }
  }

  lemma BashReads(flag: string)
    requires PlainWord(flag)
    ensures Tokenize("bash" + " " + flag) == Some(["bash", flag])
  {
    FixedWordsArePlain();
    var ws := ["bash"];
    LeadingOf(ws);
    LexLeading(ws, flag);
    LexLast(flag);
    assert ws + [flag] == ["bash", flag];
  }

  /** Under an interactive shell the first reading yields `bash -ic CMD` with CMD as one
      word, and reading CMD in turn yields the intended argument vector. */
  lemma InteractiveReadsAsArgv(kind: Kind, name: string, mode: string)
    requires kind.ClaudeBroker? || kind.ClaudeRC?
    requires mode == "" || ValidPermissionMode(mode)
    ensures exists cmd ::
      && Tokenize(InnerCommand(kind, name, mode, true)) == Some(["bash", "-ic", cmd])
      && Tokenize(cmd) == Some(Argv(kind, name, mode))
  {
    var cmd := InnerCommand(kind, name, mode, false);
    CommandReadsAsArgv(kind, name, mode);
    FixedWordsArePlain();
    QuoteIsOneWord(cmd);
    var ws := ["bash", "-ic"];
    LeadingOf(ws);
    LexLeading(ws, ShellQuote(cmd));
    assert InnerCommand(kind, name, mode, true) == Leading(ws) + ShellQuote(cmd);
    assert ws + [cmd] == ["bash", "-ic", cmd];
  }
}
