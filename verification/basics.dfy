/** Small vocabulary shared by every component: optional values, results, and
    the parts of Go's `strings` package the modelled code relies on. */
module Basics {

  datatype Option<+T> = None | Some(value: T)

  datatype Result<+T, +E> = Ok(value: T) | Err(error: E)

  /** Go's `strings.HasPrefix`. */
  predicate HasPrefix(s: string, p: string) {
    |p| <= |s| && s[..|p|] == p
  }

  /** Go's `strings.TrimPrefix`. */
  function TrimPrefix(s: string, p: string): string {
    if HasPrefix(s, p) then s[|p|..] else s
  }

  lemma TrimPrefixOfConcat(p: string, s: string)
    ensures HasPrefix(p + s, p) && TrimPrefix(p + s, p) == s
  {
    assert (p + s)[..|p|] == p && (p + s)[|p|..] == s;
  }

  /** Go's `strings.ReplaceAll` for a non-empty `old`: leftmost, non-overlapping. */
  function ReplaceAll(s: string, old_: string, new_: string): string
    requires old_ != ""
    decreases |s|
  {
    if s == "" then ""
    else if HasPrefix(s, old_) then new_ + ReplaceAll(s[|old_|..], old_, new_)
    else [s[0]] + ReplaceAll(s[1..], old_, new_)
  }

  /** Index of the first `c` in `s`, or `|s|` when there is none. */
  function IndexOf(s: string, c: char): (i: nat)
    ensures i <= |s|
    ensures c !in s[..i]
    ensures i < |s| ==> s[i] == c
  {
    if s == "" || s[0] == c then 0 else
      var i := 1 + IndexOf(s[1..], c);
      assert s[..i] == [s[0]] + s[1..][..i - 1];
      i
  }

  /** Go's `strings.Split` for a one-character separator. */
  function Split(s: string, sep: char): (parts: seq<string>)
    ensures |parts| >= 1
    decreases |s|
  {
    var i := IndexOf(s, sep);
    if i == |s| then [s] else [s[..i]] + Split(s[i + 1..], sep)
  }

  /** Every line followed by the terminator: what a line-oriented dump prints. */
  function JoinLines(lines: seq<string>): string {
    if lines == [] then "" else lines[0] + "\n" + JoinLines(lines[1..])
  }

  lemma IndexOfPrefix(a: string, b: string, c: char)
    requires c !in a
    ensures IndexOf(a + [c] + b, c) == |a|
  {
    var s := a + [c] + b;
    assert s[..|a|] == a && s[|a|] == c;
    assert s[|a|] in s[..|a| + 1];
  }

  /** Splitting a dump gives back its lines, plus the empty tail after the last terminator. */
  lemma {:induction false} SplitJoinLines(lines: seq<string>)
    requires forall l <- lines :: '\n' !in l
    ensures Split(JoinLines(lines), '\n') == lines + [""]
  {
    if lines != [] {
      var rest := JoinLines(lines[1..]);
      var s := JoinLines(lines);
      assert s == lines[0] + ['\n'] + rest;
      IndexOfPrefix(lines[0], rest, '\n');
      assert s[..|lines[0]|] == lines[0] && s[|lines[0]| + 1..] == rest;
      SplitJoinLines(lines[1..]);
    }
  }

  /** unicode.IsSpace: the characters `strings.TrimSpace` removes. */
  predicate IsSpace(c: char) {
    '\t' <= c <= '\r' || c == ' ' || c == '\U{85}' || c == '\U{A0}' || c == '\U{1680}' ||
    '\U{2000}' <= c <= '\U{200A}' || c == '\U{2028}' || c == '\U{2029}' || c == '\U{202F}' ||
    c == '\U{205F}' || c == '\U{3000}'
  }

  /** The same as a list of code points: those of Unicode's property White_Space. */
  lemma SpacesExactly(c: char)
    ensures IsSpace(c) <==> c as int in {
              9, 10, 11, 12, 13, 32, 0x85, 0xA0, 0x1680,
              0x2000, 0x2001, 0x2002, 0x2003, 0x2004, 0x2005, 0x2006, 0x2007, 0x2008, 0x2009, 0x200A,
              0x2028, 0x2029, 0x202F, 0x205F, 0x3000}
  {
  }

  function TrimLeft(s: string): string {
    if s != "" && IsSpace(s[0]) then TrimLeft(s[1..]) else s
  }

  function TrimRight(s: string): string {
    if s != "" && IsSpace(s[|s| - 1]) then TrimRight(s[..|s| - 1]) else s
  }

  /** Go's `strings.TrimSpace`. */
  function TrimSpace(s: string): string {
    TrimRight(TrimLeft(s))
  }

  /** A string with no space at either end is left alone. */
  lemma TrimSpaceFixed(s: string)
    requires s == "" || (!IsSpace(s[0]) && !IsSpace(s[|s| - 1]))
    ensures TrimSpace(s) == s
  {
  }

  /** Trimming takes off exactly the spaces at both ends: what is left has none there, and what
      was taken is nothing but spaces. */
  lemma {:induction false} TrimSpaceExactly(s: string)
    ensures var t := TrimSpace(s);
            && (t != "" ==> !IsSpace(t[0]) && !IsSpace(t[|t| - 1]))
            && exists l: nat, r: nat ::
                 && l <= r <= |s| && s[l..r] == t
                 && (forall c <- s[..l] :: IsSpace(c)) && (forall c <- s[r..] :: IsSpace(c))
  {
    var l := TrimLeftExactly(s);
    var u := TrimLeft(s);
    var n := RightEnd(u);
    TrimRightKeeps(u);
    assert s[l..l + n] == u[..n] && s[l + n..] == u[n..];
    forall c | c in s[l + n..] ensures IsSpace(c) {
      var i :| n <= i < |u| && u[i] == c;
      TrimRightDrops(u, i);
    }
  }

  lemma {:induction false} TrimLeftExactly(s: string) returns (l: nat)
    ensures l <= |s| && TrimLeft(s) == s[l..] && (forall c <- s[..l] :: IsSpace(c))
    ensures TrimLeft(s) != "" ==> !IsSpace(TrimLeft(s)[0])
  {
    if s != "" && IsSpace(s[0]) {
      var k := TrimLeftExactly(s[1..]);
      l := k + 1;
      assert s[..l] == [s[0]] + s[1..][..k] && s[l..] == s[1..][k..];
    } else {
      l := 0;
    }
  }

  /** Where what TrimRight keeps ends. */
  function RightEnd(s: string): (n: nat)
    ensures n <= |s| && (n > 0 ==> !IsSpace(s[n - 1]))
  {
    if s != "" && IsSpace(s[|s| - 1]) then RightEnd(s[..|s| - 1]) else |s|
  }

  lemma {:induction false} TrimRightKeeps(s: string)
    ensures TrimRight(s) == s[..RightEnd(s)]
  {
    if s != "" && IsSpace(s[|s| - 1]) {
      TrimRightKeeps(s[..|s| - 1]);
      assert s[..|s| - 1][..RightEnd(s)] == s[..RightEnd(s)];
    } else {
      assert s[..|s|] == s;
    }
  }

  lemma {:induction false} TrimRightDrops(s: string, i: nat)
    requires RightEnd(s) <= i < |s|
    ensures IsSpace(s[i])
  {
    if i < |s| - 1 { TrimRightDrops(s[..|s| - 1], i); }
  }

  function MinInt(a: int, b: int): int { if a < b then a else b }

  function MaxInt(a: int, b: int): int { if a > b then a else b }

  predicate IsDigit(c: char) { '0' <= c <= '9' }

  /** The value of a digit string. */
  function DigitsValue(s: string): (n: nat)
    requires forall c <- s :: IsDigit(c)
  {
    if s == "" then 0
    else
      assert IsDigit(s[|s| - 1]);
      10 * DigitsValue(s[..|s| - 1]) + (s[|s| - 1] as int - '0' as int)
  }

  /** A natural number in decimal. */
  function NatText(n: nat): string {
    if n < 10 then [('0' as int + n) as char] else NatText(n / 10) + [('0' as int + n % 10) as char]
  }

  /** Reading a printed number gives it back. */
  lemma {:induction false} NatTextReads(n: nat)
    ensures NatText(n) != "" && (forall c <- NatText(n) :: IsDigit(c)) && DigitsValue(NatText(n)) == n
  {
    var s := NatText(n);
    var last := ('0' as int + n % 10) as char;
    if n < 10 {
      assert s == [last] && s[..0] == "";
    } else {
      var front := NatText(n / 10);
      NatTextReads(n / 10);
      assert s == front + [last] && s[..|s| - 1] == front;
    }
  }
}
