/** Text as the program handles it: white space, words, trimming and line splitting follow
    Python's `str` methods; a character is a Unicode scalar value. */
module Text {

  /** The characters `str.isspace` accepts, which are also the ones `\s` matches. */
  predicate IsSpace(c: char) {
    var n := c as int;
    || 0x09 <= n <= 0x0D || 0x1C <= n <= 0x20 || n == 0x85 || n == 0xA0 || n == 0x1680
    || 0x2000 <= n <= 0x200A || n == 0x2028 || n == 0x2029 || n == 0x202F || n == 0x205F || n == 0x3000
  }

  /** The characters at which `str.splitlines` ends a line. */
  predicate IsLineBreak(c: char) {
    var n := c as int;
    || 0x0A <= n <= 0x0D || 0x1C <= n <= 0x1E || n == 0x85 || n == 0x2028 || n == 0x2029
  }

  /** The white space characters and, among them, the line breaks, by their code points. */
  lemma SpacesExactly(c: char)
    ensures IsSpace(c) <==> c as int in {
      0x09, 0x0A, 0x0B, 0x0C, 0x0D, 0x1C, 0x1D, 0x1E, 0x1F, 0x20, 0x85, 0xA0, 0x1680, 0x2000, 0x2001, 0x2002, 0x2003,
      0x2004, 0x2005, 0x2006, 0x2007, 0x2008, 0x2009, 0x200A, 0x2028, 0x2029, 0x202F, 0x205F, 0x3000}
    ensures IsLineBreak(c) <==> c as int in {0x0A, 0x0B, 0x0C, 0x0D, 0x1C, 0x1D, 0x1E, 0x85, 0x2028, 0x2029}
    ensures IsLineBreak(c) ==> IsSpace(c)
  {}

  predicate IsQuote(c: char) {
    c == '"'
  }

  predicate IsPrintableAscii(c: char) {
    ' ' <= c <= '~'
  }

  predicate All(s: string, p: char -> bool) {
    forall i :: 0 <= i < |s| ==> p(s[i])
  }

  // ----- Words: `str.split()` -----

  /** Length of the leading run without white space. */
  function RunLength(s: string): (n: nat)
    ensures n <= |s|
    ensures forall i :: 0 <= i < n ==> !IsSpace(s[i])
    ensures n < |s| ==> IsSpace(s[n])
  {
    if s == [] || IsSpace(s[0]) then 0 else 1 + RunLength(s[1..])
  }

  function Split(s: string): seq<string>
    decreases |s|
  {
    if s == [] then []
    else if IsSpace(s[0]) then Split(s[1..])
    else [s[..RunLength(s)]] + Split(s[RunLength(s)..])
  }

  /** `len(s.split())`, the program's notion of a token count. */
  function Words(s: string): nat {
    |Split(s)|
  }

  /** The number of words that start in `s`, given whether white space precedes it. */
  function Starts(s: string, afterSpace: bool): nat {
    if s == [] then 0
    else (if afterSpace && !IsSpace(s[0]) then 1 else 0) + Starts(s[1..], IsSpace(s[0]))
  }

  lemma {:induction false} StartsSkipsRun(s: string)
    ensures Starts(s, false) == Starts(s[RunLength(s)..], true)
  {
    if s == [] {
    } else if IsSpace(s[0]) {
      assert s[0..] == s;
    } else {
      StartsSkipsRun(s[1..]);
      assert s[1..][RunLength(s[1..])..] == s[RunLength(s)..];
    }
  }

  /** Splitting into words and counting word starts agree. */
  lemma {:induction false} WordsAreStarts(s: string)
    ensures Words(s) == Starts(s, true)
    decreases |s|
  {
    if s == [] {
    } else if IsSpace(s[0]) {
      WordsAreStarts(s[1..]);
    } else {
      var n := RunLength(s);
      WordsAreStarts(s[n..]);
      StartsSkipsRun(s[1..]);
      assert s[1..][RunLength(s[1..])..] == s[n..];
    }
  }

  lemma {:induction false} StartsConcat(a: string, b: string, afterSpace: bool)
    ensures Starts(a + b, afterSpace)
         == Starts(a, afterSpace) + Starts(b, if a == [] then afterSpace else IsSpace(a[|a| - 1]))
  {
    if a == [] {
      assert a + b == b;
    } else {
      StartsConcat(a[1..], b, IsSpace(a[0]));
      assert (a + b)[1..] == a[1..] + b;
    }
  }

  /** Two texts are glued when a word runs across the point where they meet. */
  predicate Glued(a: string, b: string) {
    a != [] && b != [] && !IsSpace(a[|a| - 1]) && !IsSpace(b[0])
  }

  /** The exact word count of a concatenation. */
  lemma WordsConcat(a: string, b: string)
    ensures Words(a + b) == Words(a) + Words(b) - (if Glued(a, b) then 1 else 0)
  {
    WordsAreStarts(a);
    WordsAreStarts(b);
    WordsAreStarts(a + b);
    StartsConcat(a, b, true);
  }

  /** Word count is additive across an inserted white space character, for all texts. */
  lemma WordsAcrossSpace(a: string, space: char, b: string)
    requires IsSpace(space)
    ensures Words(a + [space] + b) == Words(a) + Words(b)
  {
    assert Words([space]) == 0 by {
      WordsAreStarts([space]);
    }
    WordsConcat(a, [space]);
    WordsConcat(a + [space], b);
  }

  predicate OneWord(s: string) {
    s != [] && forall i :: 0 <= i < |s| ==> !IsSpace(s[i])
  }

  lemma OneWordCounts(s: string)
    requires OneWord(s)
    ensures Words(s) == 1
  {
    assert RunLength(s) == |s|;
    assert s[|s|..] == [];
    assert Split(s) == [s[..|s|]] + Split(s[|s|..]);
  }

  // ----- Trimming: `str.strip` -----

  function TrimLeft(s: string, drop: char -> bool): string {
    if s != [] && drop(s[0]) then TrimLeft(s[1..], drop) else s
  }

  function TrimRight(s: string, drop: char -> bool): string {
    if s != [] && drop(s[|s| - 1]) then TrimRight(s[..|s| - 1], drop) else s
  }

  function Trim(s: string, drop: char -> bool): string {
    TrimRight(TrimLeft(s, drop), drop)
  }

  lemma TrimStops(s: string, drop: char -> bool)
    ensures (s == [] || !drop(s[0])) ==> TrimLeft(s, drop) == s
    ensures (s == [] || !drop(s[|s| - 1])) ==> TrimRight(s, drop) == s
  {}

  lemma TrimDrops(c: char, s: string, drop: char -> bool)
    requires drop(c)
    ensures TrimLeft([c] + s, drop) == TrimLeft(s, drop)
    ensures TrimRight(s + [c], drop) == TrimRight(s, drop)
  {
    assert ([c] + s)[1..] == s && (s + [c])[..|s|] == s;
  }

  /** Trimming takes away characters to be dropped, and every such character at both ends. */
  lemma TrimExactly(s: string, drop: char -> bool) returns (before: string, after: string)
    ensures s == before + Trim(s, drop) + after && All(before, drop) && All(after, drop)
    ensures var t := Trim(s, drop); t != "" ==> !drop(t[0]) && !drop(t[|t| - 1])
  {
    var left := TrimLeft(s, drop);
    before := LeftPart(s, drop);
    after := RightPart(left, drop);
    assert before + left == before + TrimRight(left, drop) + after;
  }

  lemma {:induction false} LeftPart(s: string, drop: char -> bool) returns (before: string)
    ensures s == before + TrimLeft(s, drop) && All(before, drop)
    ensures var t := TrimLeft(s, drop); t != "" ==> !drop(t[0])
  {
    before := "";
    if s != "" && drop(s[0]) {
      var rest := LeftPart(s[1..], drop);
      before := [s[0]] + rest;
      assert s == [s[0]] + s[1..];
    }
  }

  lemma {:induction false} RightPart(s: string, drop: char -> bool) returns (after: string)
    ensures s == TrimRight(s, drop) + after && All(after, drop)
    ensures var t := TrimRight(s, drop);
      t != "" ==> !drop(t[|t| - 1]) && s != "" && t[0] == s[0]
  {
    after := "";
    if s != "" && drop(s[|s| - 1]) {
      var rest := RightPart(s[..|s| - 1], drop);
      after := rest + [s[|s| - 1]];
      assert s == s[..|s| - 1] + [s[|s| - 1]];
    }
  }

  function Strip(s: string): string {
    Trim(s, IsSpace)
  }

  lemma StripNothing(s: string)
    requires s != [] && !IsSpace(s[0]) && !IsSpace(s[|s| - 1])
    ensures Strip(s) == s
  {}

  // ----- Lines: `str.splitlines` -----

  /** Length of the leading run without a line break. */
  function LineLength(s: string): (n: nat)
    ensures n <= |s|
    ensures forall i :: 0 <= i < n ==> !IsLineBreak(s[i])
    ensures n < |s| ==> IsLineBreak(s[n])
  {
    if s == [] || IsLineBreak(s[0]) then 0 else 1 + LineLength(s[1..])
  }

  /** A carriage return and the line feed after it are one line break. */
  function BreakLength(s: string): (n: nat)
    requires s != []
    ensures 1 <= n <= |s|
  {
    if |s| >= 2 && s[0] == '\r' && s[1] == '\n' then 2 else 1
  }

  function SplitLines(s: string): seq<string>
    decreases |s|
  {
    if s == [] then []
    else
      var n := LineLength(s);
      if n == |s| then [s]
      else [s[..n]] + SplitLines(s[n..][BreakLength(s[n..])..])
  }

  predicate OneLine(s: string) {
    forall i :: 0 <= i < |s| ==> !IsLineBreak(s[i])
  }

  /** A text without line breaks, ended by a line feed, is the first line. */
  lemma SplitLinesFirst(line: string, rest: string)
    requires OneLine(line)
    ensures SplitLines(line + "\n" + rest) == [line] + SplitLines(rest)
  {
    var s := line + "\n" + rest;
    assert s == line + ("\n" + rest);
    assert LineLength(s) == |line| by {
      assert s[|line|] == '\n' && forall i :: 0 <= i < |line| ==> s[i] == line[i];
    }
    assert s[..|line|] == line;
    assert s[|line|..] == "\n" + rest;
    assert ("\n" + rest)[1..] == rest;
  }
}
