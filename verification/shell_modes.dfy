/** Why the permission mode has to be checked: it is the one part of the command line in
    `internal/rc/rc.go` that is pasted in unquoted. */
module ShellModes {
  import opened Basics
  import opened Shell

  /** What follows the mode in the command, as text and as words. */
  function Tail(kind: Kind): string {
    if kind.ClaudeBroker? then " " + ("--spawn" + " " + "same-dir") else ""
  }

  function TailWords(kind: Kind): seq<string> {
    if kind.ClaudeBroker? then ["--spawn", "same-dir"] else []
  }

  /** A text without quoting characters that does not go on with the word before it. */
  predicate Apart(rest: string) {
    (rest == "" || Blank(rest[0])) && forall c <- rest :: Blank(c) || Plain(c)
  }

  predicate AllPlain(m: string) { forall c <- m :: Plain(c) }

  predicate EndsInBackslash(m: string) { m != "" && m[|m| - 1] == '\\' }

  // ---------------------------------------------------------------- the first word

  lemma {:induction false} UnclosedQuote(s: string, w: string)
    requires '\'' !in s
    ensures Lex(s, true, Some(w)).None?
    decreases |s|
  {
    if s != "" { UnclosedQuote(s[1..], w + [s[0]]); }
  }

  /** Reading on in a text without quoting characters only adds plain characters. */
  lemma {:induction false} ReadsOnPlainly(s: string, w: string)
    requires forall c <- s :: Blank(c) || Plain(c)
    ensures var r := Lex(s, false, Some(w));
            r.Some? && r.value != [] && w <= r.value[0] && AllPlain(r.value[0][|w|..])
    decreases |s|
  {
    if s != "" && Plain(s[0]) {
      ReadsOnPlainly(s[1..], w + [s[0]]);
      var u := Lex(s[1..], false, Some(w + [s[0]])).value[0];
      assert u[|w|..] == [s[0]] + u[|w| + 1..];
    } else if s != "" {
      assert Blank(s[0]);
      StartsPlainly(s[1..]);
    }
  }

  lemma {:induction false} StartsPlainly(s: string)
    requires forall c <- s :: Blank(c) || Plain(c)
    ensures var r := Lex(s, false, None);
            r.Some? && (r.value != [] ==> AllPlain(r.value[0]))
    decreases |s|
  {
    if s != "" && Plain(s[0]) {
      assert "" + [s[0]] == [s[0]];
      ReadsOnPlainly(s[1..], [s[0]]);
      var u := Lex(s[1..], false, Some([s[0]])).value[0];
      assert u == [s[0]] + u[1..];
    } else if s != "" {
      assert Blank(s[0]);
      StartsPlainly(s[1..]);
    }
  }

  /** What the reader can have made of `w` followed by `m`: a word no longer than both, and
      shorter as soon as it met a quoting or separating character; unless `m` ends in a backslash
      that reached out into `rest`, and then the word does not end in one. */
  predicate NoLonger(m: string, quoted: bool, w: string, u: string) {
    || |u| + (if quoted || !AllPlain(m) then 1 else 0) <= |w| + |m|
    || (EndsInBackslash(m) && u != "" && !EndsInBackslash(u))
  }

  lemma NoLongerStep(c: char, t: string, quoted: bool, after: bool, w: string, v: string, u: string)
    requires NoLonger(t, after, v, u)
    requires |v| <= |w| + 1
    requires (!quoted && Plain(c) && after == quoted) || (after && quoted) || |v| <= |w|
    ensures NoLonger([c] + t, quoted, w, u)
  {
    var m := [c] + t;
    assert t != "" ==> m[|m| - 1] == t[|t| - 1];
    assert forall d <- t :: d in m;
    assert forall d <- m :: d == c || d in t;
  }

  lemma {:induction false} FirstWordNoLonger(m: string, rest: string, quoted: bool, w: string)
    requires Apart(rest) && Lex(m + rest, quoted, Some(w)).Some?
    ensures var ws := Lex(m + rest, quoted, Some(w)).value;
            ws != [] && NoLonger(m, quoted, w, ws[0])
    decreases |m|
  {
    if m == "" {
      assert m + rest == rest;
      if quoted { UnclosedQuote(rest, w); }
    } else {
      var c, t := m[0], m[1..];
      assert (m + rest)[0] == c && (m + rest)[1..] == t + rest && m == [c] + t;
      if quoted {
        InsideQuotes(m, rest, w);
      } else if c == '\'' {
        FirstWordNoLonger(t, rest, true, w);
        NoLongerStep(c, t, false, true, w, w, Lex(t + rest, true, Some(w)).value[0]);
      } else if c == '\\' {
        AfterBackslash(m, rest, w);
      } else if Plain(c) {
        FirstWordNoLonger(t, rest, false, w + [c]);
        NoLongerStep(c, t, false, false, w, w + [c], Lex(t + rest, false, Some(w + [c])).value[0]);
      } else {
        assert Blank(c) && c in m;
      }
    }
  }

  lemma {:induction false} InsideQuotes(m: string, rest: string, w: string)
    requires Apart(rest) && m != "" && Lex(m + rest, true, Some(w)).Some?
    ensures var ws := Lex(m + rest, true, Some(w)).value;
            ws != [] && NoLonger(m, true, w, ws[0])
    decreases |m|, 0
  {
    var c, t := m[0], m[1..];
    assert (m + rest)[0] == c && (m + rest)[1..] == t + rest && m == [c] + t;
    if c == '\'' {
      FirstWordNoLonger(t, rest, false, w);
      NoLongerStep(c, t, true, false, w, w, Lex(t + rest, false, Some(w)).value[0]);
    } else {
      FirstWordNoLonger(t, rest, true, w + [c]);
      NoLongerStep(c, t, true, true, w, w + [c], Lex(t + rest, true, Some(w + [c])).value[0]);
    }
  }

  lemma EndsPlainly(v: string, u: string)
    requires v <= u && AllPlain(u[|v|..]) && v != "" && !EndsInBackslash(v)
    ensures u != "" && !EndsInBackslash(u)
  {
    if |u| > |v| {
      var tail := u[|v|..];
      assert tail[|tail| - 1] in tail && u[|u| - 1] == tail[|tail| - 1];
    }
  }

  lemma {:induction false} AfterBackslash(m: string, rest: string, w: string)
    requires Apart(rest) && m != "" && m[0] == '\\' && Lex(m + rest, false, Some(w)).Some?
    ensures var ws := Lex(m + rest, false, Some(w)).value;
            ws != [] && NoLonger(m, false, w, ws[0])
    decreases |m|, 0
  {
    var s := m + rest;
    if |m| == 1 {
      assert s[1] == rest[0] && s[2..] == rest[1..] && Blank(rest[0]);
      ReadsOnPlainly(rest[1..], w + [rest[0]]);
      EndsPlainly(w + [rest[0]], Lex(rest[1..], false, Some(w + [rest[0]])).value[0]);
    } else {
      var t := m[2..];
      assert s[1] == m[1] && s[2..] == t + rest;
      var v := if m[1] == '\n' then w else w + [m[1]];
      FirstWordNoLonger(t, rest, false, v);
      assert t != "" ==> m[|m| - 1] == t[|t| - 1];
    }
  }

  /** Before the first word the reader passes over blanks and continued lines. */
  predicate PassedOver(t: string) {
    t != "" && (Blank(t[0]) || (|t| > 1 && t[0] == '\\' && t[1] == '\n'))
  }

  function Past(t: string): string
    requires PassedOver(t)
  {
    if Blank(t[0]) then t[1..] else t[2..]
  }

  lemma PassOver(t: string, rest: string)
    requires PassedOver(t)
    ensures Lex(t + rest, false, None) == Lex(Past(t) + rest, false, None)
    ensures EndsInBackslash(Past(t)) ==> EndsInBackslash(t)
  {
    var s := t + rest;
    assert s[0] == t[0] && s[1..] == t[1..] + rest;
    if !Blank(t[0]) { assert s[1] == t[1] && s[2..] == t[2..] + rest; }
  }

  /** Otherwise the first word starts at once. */
  lemma StartsAtOnce(t: string, rest: string)
    requires Apart(rest) && t != "" && !PassedOver(t)
    ensures Lex(t + rest, false, None) == Lex(t + rest, false, Some(""))
  {
    var s := t + rest;
    assert s[0] == t[0] && (|t| > 1 ==> s[1] == t[1]) && (|t| == 1 && rest != "" ==> s[1] == rest[0]);
  }

  /** The first word is no longer than the text, unless it reaches out or comes from beyond. */
  lemma {:induction false} AfterPassingOver(t: string, rest: string)
    requires Apart(rest)
    requires var r := Lex(t + rest, false, None); r.Some? && r.value != []
    ensures var u := Lex(t + rest, false, None).value[0];
            |u| <= |t| || AllPlain(u) || (EndsInBackslash(t) && !EndsInBackslash(u))
    decreases |t|
  {
    if t == "" {
      assert t + rest == rest;
      StartsPlainly(rest);
    } else if PassedOver(t) {
      PassOver(t, rest);
      AfterPassingOver(Past(t), rest);
    } else {
      StartsAtOnce(t, rest);
      FirstWordNoLonger(t, rest, false, "");
    }
  }

  /** A mode that is read as itself has nothing in it but plain characters. */
  lemma ReadAsItself(m: string, rest: string)
    requires Apart(rest) && m != ""
    requires var r := Lex(m + rest, false, None); r.Some? && r.value != [] && r.value[0] == m
    ensures PlainWord(m)
  {
    if PassedOver(m) {
      PassOver(m, rest);
      assert !AllPlain(m) by { assert m[0] in m; }
      AfterPassingOver(Past(m), rest);
    } else {
      StartsAtOnce(m, rest);
      FirstWordNoLonger(m, rest, false, "");
    }
  }

  // ---------------------------------------------------------------- the command around it

  function Intro(kind: Kind, name: string): seq<string> {
    Shell.Before(kind, "x") + [name, "--permission-mode"]
  }

  /** Fixed words, the quoted name, one flag, and then whatever the text reads as. */
  lemma ReadAround(before: seq<string>, name: string, flag: string, text: string)
    requires (forall w <- before :: PlainWord(w)) && PlainWord(flag)
    ensures Lex(Leading(before) + (ShellQuote(name) + (" " + (flag + " " + text))), false, None)
         == Prepend(before + [name, flag], Lex(text, false, None))
  {
    var flags := [flag];
    LeadingOf(flags);
    LexLeading(before, ShellQuote(name) + (" " + (flag + " " + text)));
    LexQuotedThen(name, flag + " " + text);
    LexLeading(flags, text);
    var r := Lex(text, false, None);
    if r.Some? { assert before + ([name] + (flags + r.value)) == before + [name, flag] + r.value; }
  }

  lemma AfterText(kind: Kind, mode: string)
    requires (kind.ClaudeBroker? || kind.ClaudeRC?) && mode != ""
    ensures Leading(Shell.After(kind, mode)) + Final(kind, mode) == "--permission-mode" + " " + (mode + Tail(kind))
  {
    LeadingOf(Shell.After(kind, mode));
    Regroup("--permission-mode", mode, "--spawn", Final(kind, mode));
  }

  lemma Regroup(f: string, m: string, a: string, b: string)
    ensures f + " " + m + " " + a + " " + b == f + " " + (m + (" " + (a + " " + b)))
    ensures f + " " + m == f + " " + (m + "")
  {
    assert m + "" == m;
  }

  lemma ArgvAroundMode(kind: Kind, name: string, mode: string)
    requires (kind.ClaudeBroker? || kind.ClaudeRC?) && mode != ""
    ensures Argv(kind, name, mode) == Intro(kind, name) + ([mode] + TailWords(kind))
  {
  }

  lemma CommandAroundMode(kind: Kind, name: string, mode: string)
    requires (kind.ClaudeBroker? || kind.ClaudeRC?) && mode != ""
    ensures Tokenize(InnerCommand(kind, name, mode, false)) ==
              Prepend(Intro(kind, name), Lex(mode + Tail(kind), false, None))
  {
    FixedWordsArePlain();
    CommandShape(kind, name, mode);
    AfterText(kind, mode);
    ReadAround(Shell.Before(kind, mode), name, "--permission-mode", mode + Tail(kind));
  }

  lemma TwoMore(w: string, a: string, b: string)
    requires PlainWord(a) && PlainWord(b)
    ensures Lex(" " + (a + " " + b), false, Some(w)) == Some([w] + [a, b])
  {
    var s := " " + (a + " " + b);
    assert s[1..] == a + " " + b;
    var ws := [a];
    LeadingOf(ws);
    LexLeading(ws, b);
    LexLast(b);
    assert ws + [b] == [a, b];
  }

  lemma TailReads(kind: Kind, w: string)
    ensures Lex(Tail(kind), false, Some(w)) == Some([w] + TailWords(kind))
  {
    if kind.ClaudeBroker? {
      FixedWordsArePlain();
      TwoMore(w, "--spawn", "same-dir");
    } else {
      assert [w] + [] == [w];
    }
  }

  lemma TailIsApart(kind: Kind)
    ensures Apart(Tail(kind))
  {
    FixedWordsArePlain();
    if kind.ClaudeBroker? {
      forall c | c in Tail(kind) ensures Blank(c) || Plain(c) {
        assert c == ' ' || c in "--spawn" || c in "same-dir";
      }
    }
  }

  /** Exactly which modes leave the command as intended, for every display name: none at all, or
      a word of plain characters. Any other mode is read as something else, or not at all. */
  lemma IntendedExactly(kind: Kind, name: string, mode: string)
    requires kind.ClaudeBroker? || kind.ClaudeRC?
    ensures Tokenize(InnerCommand(kind, name, mode, false)) == Some(Argv(kind, name, mode)) <==>
              mode == "" || PlainWord(mode)
  {
    if mode == "" {
      CommandReadsAsArgv(kind, name, mode);
    } else {
      CommandAroundMode(kind, name, mode);
      ArgvAroundMode(kind, name, mode);
      var intro, r := Intro(kind, name), Lex(mode + Tail(kind), false, None);
      if PlainWord(mode) {
        LexFirst(mode, Tail(kind));
        TailReads(kind, mode);
      } else if Tokenize(InnerCommand(kind, name, mode, false)) == Some(Argv(kind, name, mode)) {
        SameRest(intro, r.value, [mode] + TailWords(kind));
        TailIsApart(kind);
        ReadAsItself(mode, Tail(kind));
        assert false;
      }
    }
  }

  lemma SameRest(a: seq<string>, b: seq<string>, c: seq<string>)
    requires a + b == a + c
    ensures b == c
  {
    assert (a + b)[|a|..] == b && (a + c)[|a|..] == c;
  }

  /** A blank in the mode injects a further argument. */
  lemma BlankInjectsArgument(kind: Kind, name: string, a: string, b: string)
    requires (kind.ClaudeBroker? || kind.ClaudeRC?) && PlainWord(a) && PlainWord(b)
    ensures Tokenize(InnerCommand(kind, name, a + " " + b, false)) ==
              Some(Intro(kind, name) + ([a, b] + TailWords(kind)))
  {
    CommandAroundMode(kind, name, a + " " + b);
    TwoWords(a, b, Tail(kind), TailWords(kind));
    TailReads(kind, b);
  }

  lemma TwoWords(a: string, b: string, rest: string, words: seq<string>)
    requires PlainWord(a) && PlainWord(b)
    ensures Lex(rest, false, Some(b)) == Some([b] + words) ==>
              Lex(a + " " + b + rest, false, None) == Some([a, b] + words)
  {
    var second := b + rest;
    assert a + " " + b + rest == a + (" " + second);
    LexFirst(a, " " + second);
    assert (" " + second)[1..] == second;
    LexFirst(b, rest);
    assert [a] + ([b] + words) == [a, b] + words;
  }

  /** An operator or expansion character of the shell, or a line break. */
  predicate Operator(c: char) { c in ";&|<>$`()\n" }

  /** And with an operator character in it the mode is no longer read as an argument at all. */
  lemma UncheckedModeBreaksOut(kind: Kind, name: string, p: string, c: char, q: string)
    requires (kind.ClaudeBroker? || kind.ClaudeRC?) && PlainWord(p) && Operator(c)
    ensures Tokenize(InnerCommand(kind, name, p + [c] + q, false)).None?
  {
    var mode, tail := p + [c] + q, Tail(kind);
    CommandAroundMode(kind, name, mode);
    OperatorIsRefused(p, c, q, tail);
  }

  lemma OperatorIsRefused(p: string, c: char, q: string, tail: string)
    requires PlainWord(p) && Operator(c)
    ensures Lex((p + [c] + q) + tail, false, None).None?
  {
    var rest := [c] + (q + tail);
    assert (p + [c] + q) + tail == p + rest;
    LexFirst(p, rest);
    assert rest[0] == c;
    NotPlain(c);
  }

  lemma NotPlain(c: char)
    requires Operator(c)
    ensures !Plain(c) && !Blank(c) && c != '\'' && c != '\\'
  {
  }
}
