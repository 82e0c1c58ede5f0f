/** std::string searches: find, find_first_not_of, and the trimming built from them. */
module Strings {

  /** The first position of c in s, or |s|. */
  function Find(s: string, c: char): (i: nat)
    ensures i <= |s|
  {
    if s == "" || s[0] == c then 0 else 1 + Find(s[1..], c)
  }

  lemma {:induction false} FindBefore(a: string, c: char, b: string)
    requires c !in a
    ensures Find(a + [c] + b, c) == |a|
  {
    if a != "" {
      FindBefore(a[1..], c, b);
      assert (a + [c] + b)[1..] == a[1..] + [c] + b && (a + [c] + b)[0] == a[0];
    }
  }

  lemma {:induction false} FindNone(s: string, c: char)
    requires c !in s
    ensures Find(s, c) == |s|
  {
    if s != "" { FindNone(s[1..], c); }
  }

  lemma {:induction false} FindFirst(s: string, c: char)
    ensures c !in s[..Find(s, c)]
  {
    if s != "" && s[0] != c {
      FindFirst(s[1..], c);
      assert s[..Find(s, c)] == [s[0]] + s[1..][..Find(s[1..], c)];
    }
  }

  predicate Blank(c: char) { c == ' ' || c == '\t' }

  /** find_first_not_of(" \t"), |s| for npos. */
  function Indent(s: string): (i: nat)
    ensures i <= |s|
  {
    if s == "" || !Blank(s[0]) then 0 else 1 + Indent(s[1..])
  }

  function TrimRight(s: string): string {
    if s == "" || !Blank(s[|s| - 1]) then s else TrimRight(s[..|s| - 1])
  }

  /** erase up to the first non-blank, then from behind the last one. */
  function Trim(s: string): string { TrimRight(s[Indent(s)..]) }

  /** A piece of the text without blanks at its ends. */
  lemma {:induction false} TrimRightEnds(s: string)
    ensures TrimRight(s) <= s && (TrimRight(s) != "" ==> !Blank(TrimRight(s)[|TrimRight(s)| - 1]))
  {
    if s != "" && Blank(s[|s| - 1]) { TrimRightEnds(s[..|s| - 1]); }
  }

  lemma {:induction false} IndentStops(s: string)
    ensures Indent(s) < |s| ==> !Blank(s[Indent(s)])
  {
    if s != "" && Blank(s[0]) { IndentStops(s[1..]); }
  }

  lemma {:induction false} TrimEnds(s: string)
    ensures Trim(s) == "" || Tidy(Trim(s))
  {
    IndentStops(s);
    TrimRightEnds(s[Indent(s)..]);
  }

  lemma {:induction false} TrimLacks(s: string, c: char)
    requires c !in s
    ensures c !in Trim(s)
  {
    TrimRightEnds(s[Indent(s)..]);
  }

  function Spaces(n: nat): string { seq(n, _ => ' ') }

  lemma {:induction false} IndentSpaces(n: nat, s: string)
    requires s != "" && !Blank(s[0])
    ensures Indent(Spaces(n) + s) == n
  {
    if n > 0 {
      assert (Spaces(n) + s)[1..] == Spaces(n - 1) + s && (Spaces(n) + s)[0] == ' ';
      IndentSpaces(n - 1, s);
    } else {
      assert Spaces(n) + s == s;
    }
  }

  /** No blank at either end. */
  predicate Tidy(s: string) {
    s != "" && s[0] != ' ' && s[0] != '\t' && s[|s| - 1] != ' ' && s[|s| - 1] != '\t'
  }

  lemma {:induction false} TrimTidy(n: nat, s: string)
    requires Tidy(s)
    ensures Trim(Spaces(n) + s) == s
  {
    IndentSpaces(n, s);
    assert (Spaces(n) + s)[n..] == s;
  }

  // Lines.

  /** std::getline until the end: pieces between newlines, a last empty piece left out. */
  function Lines(s: string): seq<string>
    decreases |s|
  {
    if s == "" then []
    else
      var i := Find(s, '\n');
      if i == |s| then [s] else [s[..i]] + Lines(s[i + 1..])
  }

  /** Every line with its newline. */
  function Unlines(lines: seq<string>): string {
    if lines == [] then "" else lines[0] + "\n" + Unlines(lines[1..])
  }

  lemma {:induction false} LinesClean(s: string)
    ensures forall i :: 0 <= i < |Lines(s)| ==> '\n' !in Lines(s)[i]
    decreases |s|
  {
    if s != "" {
      var i := Find(s, '\n');
      FindFirst(s, '\n');
      if i == |s| { assert s[..i] == s; } else { LinesClean(s[i + 1..]); }
    }
  }

  lemma {:induction false} LinesUnlines(lines: seq<string>)
    requires forall i :: 0 <= i < |lines| ==> '\n' !in lines[i]
    ensures Lines(Unlines(lines)) == lines
  {
    if lines != [] {
      var rest := Unlines(lines[1..]);
      var s := Unlines(lines);
      assert s == lines[0] + ['\n'] + rest;
      FindBefore(lines[0], '\n', rest);
      assert s[..|lines[0]|] == lines[0] && s[|lines[0]| + 1..] == rest;
      LinesUnlines(lines[1..]);
    }
  }
}
