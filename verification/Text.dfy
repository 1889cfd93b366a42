/** The string operations of the source's standard library that its text formats rest on. */
module Text {
  import opened Options
  import opened Search

  /** Unicode white space, as `char::is_whitespace`. */
  predicate IsWhite(c: char) {
    || '\t' <= c <= '\r' || c == ' ' || c == '\U{85}' || c == '\U{A0}' || c == '\U{1680}'
    || '\U{2000}' <= c <= '\U{200A}' || c == '\U{2028}' || c == '\U{2029}' || c == '\U{202F}'
    || c == '\U{205F}' || c == '\U{3000}'
  }

  predicate Blank(s: string) {
    forall i | 0 <= i < |s| :: IsWhite(s[i])
  }

  /** The first character at or after `from` that is not white, or the end. */
  function FirstBlack(s: string, from: nat): (r: nat)
    requires from <= |s|
    ensures from <= r <= |s| && (r == |s| || !IsWhite(s[r]))
    ensures forall i | from <= i < r :: IsWhite(s[i])
    decreases |s| - from
  {
    if from < |s| && IsWhite(s[from]) then FirstBlack(s, from + 1) else from
  }

  /** Where the white characters in front of `to` begin. */
  function BlackEnd(s: string, to: nat): (r: nat)
    requires to <= |s|
    ensures r <= to && (r == 0 || !IsWhite(s[r - 1]))
    ensures forall i | r <= i < to :: IsWhite(s[i])
  {
    if to > 0 && IsWhite(s[to - 1]) then BlackEnd(s, to - 1) else to
  }

  function TrimStart(s: string): (r: string)
    ensures |r| <= |s| && r == s[|s| - |r|..]
    ensures r == [] || !IsWhite(r[0])
    ensures Blank(s[..|s| - |r|])
  {
    s[FirstBlack(s, 0)..]
  }

  function TrimEnd(s: string): (r: string)
    ensures |r| <= |s| && r == s[..|r|]
    ensures r == [] || !IsWhite(r[|r| - 1])
    ensures Blank(s[|r|..])
  {
    s[..BlackEnd(s, |s|)]
  }

  function Trim(s: string): string {
    TrimEnd(TrimStart(s))
  }

  /** A line without the carriage return that ends it. */
  function StripCr(line: string): (r: string)
    ensures |line| - 1 <= |r| <= |line| && r <= line
    ensures r == line <==> line == [] || line[|line| - 1] != '\r'
  {
    if line != [] && line[|line| - 1] == '\r' then line[..|line| - 1] else line
  }

  /** `str::lines`: pieces ended by a newline, each without the carriage return before it, and an unended
      last piece as it is. */
  function SplitLines(text: string): (r: seq<string>)
    ensures forall l <- r :: '\n' !in l
    decreases |text|
  {
    if text == "" then [] else
      FindIsFirst(text, "\n", 0);
      match Find(text, "\n", 0)
      case None =>
        NoNewline(text, |text|);
        [text]
      case Some(p) =>
        NoNewline(text, p);
        [StripCr(text[..p])] + SplitLines(text[p + 1..])
  }

  lemma NoNewline(text: string, to: nat)
    requires to <= |text| && forall j | 0 <= j < to :: !OccursAt(text, "\n", j)
    ensures '\n' !in text[..to]
    ensures to == |text| ==> '\n' !in text
  {
    forall j | 0 <= j < to ensures text[j] != '\n' {
      assert !OccursAt(text, "\n", j);
    }
  }

  predicate NewlineEnded(text: string) {
    text == "" || text[|text| - 1] == '\n'
  }

  lemma FirstNewline(line: string, rest: string)
    requires '\n' !in line
    ensures Find(line + "\n" + rest, "\n", 0) == Some(|line|)
  {
    var t := line + "\n" + rest;
    forall j | 0 <= j < |line| ensures !OccursAt(t, "\n", j) {
      assert t[j] == line[j] && "\n"[0] == '\n';
    }
    FindIs(t, "\n", 0, Some(|line|));
  }

  /** The first line of a text. */
  lemma SplitFirst(line: string, rest: string)
    requires '\n' !in line
    ensures SplitLines(line + "\n" + rest) == [StripCr(line)] + SplitLines(rest)
  {
    FirstNewline(line, rest);
    var t := line + "\n" + rest;
    assert t[..|line|] == line && t[|line| + 1..] == rest;
  }

  /** Cutting a text behind its first newline, and behind the same newline after a line was appended. */
  lemma CutFirst(text: string, line: string) returns (first: string, rest: string)
    requires Find(text, "\n", 0).Some?
    ensures '\n' !in first && |rest| < |text| && text == first + "\n" + rest
    ensures NewlineEnded(text) <==> NewlineEnded(rest)
    ensures SplitLines(text) == [StripCr(first)] + SplitLines(rest)
    ensures SplitLines(text + line + "\n") == [StripCr(first)] + SplitLines(rest + line + "\n")
  {
    hide Find;
    FindIsFirst(text, "\n", 0);
    var p := Find(text, "\n", 0).value;
    first, rest := text[..p], text[p + 1..];
    NoNewline(text, p);
    assert text == first + "\n" + rest;
    assert text + line + "\n" == first + "\n" + (rest + line + "\n");
    SplitFirst(first, rest);
    SplitFirst(first, rest + line + "\n");
  }

  /** A line appended to an ended text is its own last line. */
  lemma {:induction false} SplitAppend(text: string, line: string)
    requires NewlineEnded(text) && '\n' !in line
    ensures SplitLines(text + line + "\n") == SplitLines(text) + [StripCr(line)]
    decreases |text|
  {
    hide Find;
    if text == "" {
      SplitFirst(line, "");
      assert text + line + "\n" == line + "\n" + "";
    } else {
      FindIsFirst(text, "\n", 0);
      assert OccursAt(text, "\n", |text| - 1);
      var first, rest := CutFirst(text, line);
      SplitAppend(rest, line);
    }
  }

  lemma LastBehindFirst<T>(first: T, ls: seq<T>, last: T)
    requires ls != []
    ensures var all := [first] + ls;
            && all[|all| - 1] == ls[|ls| - 1]
            && all[..|all| - 1] + [last] == [first] + (ls[..|ls| - 1] + [last])
  {}

  /** Appended to an unended text, it continues that text's last line instead. */
  lemma {:induction false} SplitContinue(text: string, line: string)
    requires !NewlineEnded(text) && '\n' !in line
    ensures var ls := SplitLines(text);
            && ls != [] && ls[|ls| - 1] != ""
            && SplitLines(text + line + "\n") == ls[..|ls| - 1] + [StripCr(ls[|ls| - 1] + line)]
    decreases |text|
  {
    FindIsFirst(text, "\n", 0);
    if Find(text, "\n", 0).None? {
      NoNewline(text, |text|);
      SplitFirst(text + line, "");
      assert text + line + "\n" == (text + line) + "\n" + "";
    } else {
      hide Find, SplitLines, StripCr, NewlineEnded;
      var first, rest := CutFirst(text, line);
      SplitContinue(rest, line);
      var ls := SplitLines(rest);
      LastBehindFirst(StripCr(first), ls, StripCr(ls[|ls| - 1] + line));
    }
  }
}
