/** The parts of Python's string type that the other modules read and write files with. */
module Text {

  /** Characters at which str.splitlines breaks a text. */
  predicate IsBreak(c: char) {
    c == '\n' || c == '\r' || c == '\U{0B}' || c == '\U{0C}' || c == '\U{1C}' || c == '\U{1D}' || c == '\U{1E}'
    || c == '\U{85}' || c == '\U{2028}' || c == '\U{2029}'
  }

  /** Characters that str.strip and str.split treat as space. */
  predicate IsSpace(c: char) {
    IsBreak(c) || c == '\t' || c == '\U{1F}' || c == ' ' || c == '\U{A0}' || c == '\U{1680}'
    || ('\U{2000}' <= c <= '\U{200A}') || c == '\U{202F}' || c == '\U{205F}' || c == '\U{3000}'
  }

  predicate NoBreak(s: string) {
    forall i :: 0 <= i < |s| ==> !IsBreak(s[i])
  }

  /** Where the first line of a text ends. */
  function LineEnd(s: string): (n: nat)
    ensures n <= |s| && NoBreak(s[..n]) && (n < |s| ==> IsBreak(s[n]))
  {
    if s == [] || IsBreak(s[0]) then 0
    else
      var n := LineEnd(s[1..]);
      assert s[..1 + n] == [s[0]] + s[1..][..n];
      1 + n
  }

  /** The length of the line break a text starts with. */
  function BreakLength(s: string): (k: nat)
    requires s != [] && IsBreak(s[0])
    ensures 1 <= k <= |s|
  {
    if s[0] == '\r' && |s| > 1 && s[1] == '\n' then 2 else 1
  }

  /** What follows the first line and its break. */
  function AfterLine(s: string): (r: string)
    requires s != []
    ensures |r| < |s|
  {
    var n := LineEnd(s);
    if n == |s| then "" else s[n + BreakLength(s[n..])..]
  }

  /** str.splitlines */
  function SplitLines(s: string): seq<string>
    decreases |s|
  {
    if s == [] then [] else [s[..LineEnd(s)]] + SplitLines(AfterLine(s))
  }

  /** Each line followed by a newline: "\n".join(lines) + "\n" for a non-empty list. */
  function Unlines(lines: seq<string>): string {
    if lines == [] then "" else lines[0] + "\n" + Unlines(lines[1..])
  }

  lemma LineEndUnique(a: string, rest: string)
    requires NoBreak(a) && (rest != [] ==> IsBreak(rest[0]))
    ensures LineEnd(a + rest) == |a|
  {
    var s := a + rest;
    assert forall i :: 0 <= i < |a| ==> s[i] == a[i] && !IsBreak(a[i]);
    assert rest != [] ==> s[|a|] == rest[0];
  }

  lemma SplitLinesCons(line: string, rest: string)
    requires NoBreak(line)
    ensures SplitLines(line + "\n" + rest) == [line] + SplitLines(rest)
  {
    var s := line + "\n" + rest;
    assert s == line + ("\n" + rest);
    LineEndUnique(line, "\n" + rest);
    assert s[..|line|] == line && s[|line|..] == "\n" + rest;
    assert AfterLine(s) == rest;
  }

  /** Lines without breaks are read back as they were written. */
  lemma {:induction false} SplitLinesAfter(lines: seq<string>, rest: string)
    requires forall i :: 0 <= i < |lines| ==> NoBreak(lines[i])
    ensures SplitLines(Unlines(lines) + rest) == lines + SplitLines(rest)
  {
    if lines == [] {
      assert Unlines(lines) + rest == rest;
      assert lines + SplitLines(rest) == SplitLines(rest);
    } else {
      var x := Unlines(lines[1..]) + rest;
      SplitLinesAfter(lines[1..], rest);
      SplitLinesCons(lines[0], x);
      UnlinesCons(lines, rest);
      ConsAppend(lines, SplitLines(rest));
    }
  }

  lemma ConsAppend<T>(a: seq<T>, b: seq<T>)
    requires a != []
    ensures a + b == [a[0]] + (a[1..] + b)
  {}

  lemma UnlinesCons(lines: seq<string>, rest: string)
    requires lines != []
    ensures Unlines(lines) + rest == lines[0] + "\n" + (Unlines(lines[1..]) + rest)
  {}

  lemma SplitLinesOfUnlines(lines: seq<string>)
    requires forall i :: 0 <= i < |lines| ==> NoBreak(lines[i])
    ensures SplitLines(Unlines(lines)) == lines
  {
    SplitLinesAfter(lines, "");
    assert Unlines(lines) + "" == Unlines(lines);
  }

  /** A break inside a line cuts it there. */
  lemma SplitLinesCut(line: string, rest: string)
    requires !NoBreak(line)
    ensures var n := LineEnd(line);
            n < |line| && SplitLines(line + rest) != [] && SplitLines(line + rest)[0] == line[..n]
  {
    var n := LineEnd(line);
    var s := line + rest;
    assert s == line[..n] + (line[n..] + rest);
    LineEndUnique(line[..n], line[n..] + rest);
    assert s[..n] == line[..n];
  }

  lemma {:induction false} UnlinesAppend(a: seq<string>, b: seq<string>)
    ensures Unlines(a + b) == Unlines(a) + Unlines(b)
  {
    if a == [] {
      assert a + b == b;
    } else {
      assert (a + b)[1..] == a[1..] + b;
      UnlinesAppend(a[1..], b);
    }
  }

  // ------------------------------------------------------------------ strip

  function LStrip(s: string): string {
    if s != [] && IsSpace(s[0]) then LStrip(s[1..]) else s
  }

  function RStrip(s: string): string {
    if s != [] && IsSpace(s[|s| - 1]) then RStrip(s[..|s| - 1]) else s
  }

  function Strip(s: string): string {
    RStrip(LStrip(s))
  }

  lemma StripSolid(s: string)
    requires s != [] && !IsSpace(s[0]) && !IsSpace(s[|s| - 1])
    ensures Strip(s) == s
  {}

  predicate StartsWith(s: string, prefix: string) {
    prefix <= s
  }

  // ------------------------------------------------------ search and replace

  predicate Contains(s: string, pattern: string) {
    pattern <= s || (s != [] && Contains(s[1..], pattern))
  }

  /** str.replace, for a pattern that is not empty. */
  function Replace(s: string, pattern: string, with: string): string
    requires pattern != []
    decreases |s|
  {
    if pattern <= s then with + Replace(s[|pattern|..], pattern, with)
    else if s == [] then []
    else [s[0]] + Replace(s[1..], pattern, with)
  }

  lemma {:induction false} ReplaceNothing(s: string, pattern: string, with: string)
    requires pattern != [] && !Contains(s, pattern)
    ensures Replace(s, pattern, with) == s
  {
    if s != [] {
      ReplaceNothing(s[1..], pattern, with);
    }
  }

  /** Where a character first is; the length if it is not there. */
  function CharAt(s: string, c: char): (i: nat)
    ensures i <= |s| && c !in s[..i] && (i < |s| ==> s[i] == c)
  {
    if s == [] || s[0] == c then 0
    else
      var i := CharAt(s[1..], c);
      assert s[..1 + i] == [s[0]] + s[1..][..i];
      1 + i
  }

  /** The part before the first occurrence of a character, or all. */
  function Before(s: string, c: char): (b: string)
    ensures c !in b
  {
    s[..CharAt(s, c)]
  }

  /** The part after the first occurrence of a character, or nothing. */
  function After(s: string, c: char): string {
    if CharAt(s, c) < |s| then s[CharAt(s, c) + 1..] else []
  }

  lemma CharAtUnique(a: string, c: char, rest: string)
    requires c !in a
    ensures CharAt(a + [c] + rest, c) == |a|
    ensures Before(a + [c] + rest, c) == a && After(a + [c] + rest, c) == rest
  {
    var s := a + [c] + rest;
    assert s[|a|] == c;
    assert forall k :: 0 <= k < |a| ==> s[k] == a[k] && a[k] != c;
  }

  lemma CharAtNone(a: string, c: char)
    requires c !in a
    ensures CharAt(a, c) == |a| && Before(a, c) == a && After(a, c) == []
  {
    assert a[..|a|] == a;
  }

  /** str.split at one character. */
  function SplitChar(s: string, c: char): (parts: seq<string>)
    ensures parts != []
    decreases |s|
  {
    if c in s then [Before(s, c)] + SplitChar(After(s, c), c) else [s]
  }

  lemma NoBreakAppend(a: string, b: string)
    ensures NoBreak(a + b) <==> NoBreak(a) && NoBreak(b)
  {
    assert forall i :: 0 <= i < |a| ==> (a + b)[i] == a[i];
    assert forall i :: 0 <= i < |b| ==> (a + b)[|a| + i] == b[i];
  }

  // ------------------------------------------------------------------ words

  /** " ".join */
  function JoinWords(words: seq<string>): string {
    if words == [] then "" else if |words| == 1 then words[0] else words[0] + " " + JoinWords(words[1..])
  }

  predicate IsWord(s: string) {
    s != [] && forall i :: 0 <= i < |s| ==> !IsSpace(s[i])
  }

  function WordEnd(s: string): (n: nat)
    ensures n <= |s| && (forall i :: 0 <= i < n ==> !IsSpace(s[i])) && (n < |s| ==> IsSpace(s[n]))
  {
    if s == [] || IsSpace(s[0]) then 0
    else
      var n := WordEnd(s[1..]);
      assert forall i :: 1 <= i < 1 + n ==> s[i] == s[1..][i - 1];
      1 + n
  }

  /** str.split without a separator. */
  function Words(s: string): seq<string>
    decreases |s|
  {
    if s == [] then []
    else if IsSpace(s[0]) then Words(s[1..])
    else [s[..WordEnd(s)]] + Words(s[WordEnd(s)..])
  }

  lemma WordEndUnique(word: string, rest: string)
    requires IsWord(word) && (rest != [] ==> IsSpace(rest[0]))
    ensures WordEnd(word + rest) == |word|
  {
    var s := word + rest;
    assert forall i :: 0 <= i < |word| ==> s[i] == word[i];
    assert rest != [] ==> s[|word|] == rest[0];
  }

  lemma {:induction false} WordsOfJoin(words: seq<string>)
    requires forall i :: 0 <= i < |words| ==> IsWord(words[i])
    ensures Words(JoinWords(words)) == words
  {
    if words != [] {
      var word := words[0];
      var rest := if |words| == 1 then "" else " " + JoinWords(words[1..]);
      assert JoinWords(words) == word + rest;
      assert (word + rest)[0] == word[0];
      WordEndUnique(word, rest);
      assert (word + rest)[..|word|] == word && (word + rest)[|word|..] == rest;
      WordsOfJoin(words[1..]);
      if |words| > 1 {
        assert rest[1..] == JoinWords(words[1..]);
      }
    }
  }

  lemma PrefixHas(prefix: string, s: string, c: char)
    ensures StartsWith(s, prefix) && c in prefix ==> c in s
  {
    if StartsWith(s, prefix) && c in prefix {
      var i :| 0 <= i < |prefix| && prefix[i] == c;
      assert s[i] == c;
    }
  }
}
