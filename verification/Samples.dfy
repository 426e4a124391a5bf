/** Whole exposition texts: the sample lines, the samples they hold, and what is extracted from them. */
module Samples {
  import opened Wrappers
  import opened Text
  import opened Dicts
  import opened JsonText
  import opened Exposition

  /** A value keeps its literal text. */
  datatype Sample = Sample(name: string, labels: Dict<string, string>, value: string)

  // ----- The grammar of a sample line -----

  function NameRun(s: string): (n: nat)
    ensures n <= |s|
    ensures forall i :: 0 <= i < n ==> IsNameChar(s[i])
    ensures n < |s| ==> !IsNameChar(s[n])
  {
    if s == [] || !IsNameChar(s[0]) then 0 else 1 + NameRun(s[1..])
  }

  function SpaceRun(s: string): (n: nat)
    ensures n <= |s|
  {
    if s == [] || !IsSpace(s[0]) then 0 else 1 + SpaceRun(s[1..])
  }

  /** Digits with an optional fraction, or a fraction alone. */
  function MantissaRun(s: string): (n: nat)
    ensures n <= |s|
  {
    var n := DigitRun(s);
    if n > 0 then
      if n < |s| && s[n] == '.' then n + 1 + DigitRun(s[n + 1..]) else n
    else if s != [] && s[0] == '.' && DigitRun(s[1..]) > 0 then 1 + DigitRun(s[1..])
    else 0
  }

  predicate IsDigits(s: string) {
    s != [] && DigitRun(s) == |s|
  }

  predicate IsSign(c: char) {
    c == '+' || c == '-'
  }

  function Unsigned(s: string): string {
    if s != [] && IsSign(s[0]) then s[1..] else s
  }

  predicate IsExponent(s: string) {
    s != [] && (s[0] == 'e' || s[0] == 'E') && IsDigits(Unsigned(s[1..]))
  }

  predicate IsNumber(s: string) {
    var body := Unsigned(s);
    var n := MantissaRun(body);
    n > 0 && (n == |body| || IsExponent(body[n..]))
  }

  predicate IsValue(s: string) {
    IsNumber(s) || Unsigned(s) == "Inf" || s == "NaN"
  }

  /** White space and a value up to the end of the line. */
  function MatchValue(name: string, labels: string, s: string): Option<Sample> {
    var n := SpaceRun(s);
    if n > 0 && IsValue(s[n..]) then Some(Sample(name, LabelsOf(labels), s[n..])) else None
  }

  function MatchSample(line: string): Option<Sample> {
    if line == [] || !IsNameStart(line[0]) then None
    else
      var n := NameRun(line);
      var name, rest := line[..n], line[n..];
      if rest != [] && rest[0] == '{' then
        var end := IndexOf(rest, '}');
        if end == |rest| then None else MatchValue(name, rest[1..end], rest[end + 1..])
      else MatchValue(name, "", rest)
  }

  ghost predicate IsSignText(s: string) {
    s == "" || s == "+" || s == "-"
  }

  /** Digits with an optional point and fraction, or a point and a fraction. */
  ghost predicate IsMantissa(whole: string, fraction: string) {
    && Digits(whole) && (fraction != "" ==> fraction[0] == '.' && Digits(fraction[1..]))
    && (whole != "" || |fraction| > 1)
  }

  /** How the pattern reads a number: the text falls into these parts. */
  ghost predicate SpellsNumber(s: string, sign: string, whole: string, fraction: string, mark: string,
                               expSign: string, exponent: string)
  {
    && IsSignText(sign) && IsMantissa(whole, fraction) && IsExponentParts(mark, expSign, exponent)
    && s == sign + (whole + fraction + (mark + (expSign + exponent)))
  }

  lemma UnsignedOf(sign: string, body: string)
    requires IsSignText(sign) && body != "" && !IsSign(body[0])
    ensures Unsigned(sign + body) == body
  {
    if sign == "" {
      assert sign + body == body;
    }
  }

  lemma MantissaStops(whole: string, fraction: string, rest: string)
    requires IsMantissa(whole, fraction)
    requires rest == "" || rest[0] == 'e' || rest[0] == 'E'
    ensures MantissaRun(whole + fraction + rest) == |whole + fraction|
  {
    var s := whole + fraction + rest;
    if fraction == "" {
      assert s == whole + rest;
      DigitRunStops(whole, rest);
    } else {
      var after := fraction[1..] + rest;
      assert s == whole + (fraction + rest);
      DigitRunStops(whole, fraction + rest);
      assert s[|whole|] == '.' && s[|whole| + 1..] == after;
      DigitRunStops(fraction[1..], rest);
    }
  }

  lemma ExponentSpelled(mark: string, sign: string, digits: string)
    requires IsExponentParts(mark, sign, digits) && mark != ""
    ensures IsExponent(mark + (sign + digits))
  {
    var s := mark + (sign + digits);
    assert s[1..] == sign + digits;
    UnsignedOf(sign, digits);
    DigitRunStops(digits, "");
    assert digits + "" == digits;
  }

  lemma NumberSpelled(s: string, sign: string, whole: string, fraction: string, mark: string, expSign: string,
                      exponent: string)
    requires SpellsNumber(s, sign, whole, fraction, mark, expSign, exponent)
    ensures IsNumber(s)
  {
    var tail := mark + (expSign + exponent);
    var body := whole + fraction + tail;
    UnsignedOf(sign, body);
    assert tail == "" || tail[0] == 'e' || tail[0] == 'E';
    MantissaStops(whole, fraction, tail);
    if mark != "" {
      ExponentSpelled(mark, expSign, exponent);
      assert body[|whole + fraction|..] == tail;
    }
  }

  lemma SplitSign(s: string) returns (sign: string)
    ensures IsSignText(sign) && s == sign + Unsigned(s)
  {
    sign := if s != [] && IsSign(s[0]) then [s[0]] else "";
    assert s == sign + Unsigned(s);
  }

  lemma SplitMantissa(s: string) returns (whole: string, fraction: string)
    requires MantissaRun(s) > 0
    ensures IsMantissa(whole, fraction) && s[..MantissaRun(s)] == whole + fraction
  {
    var n := DigitRun(s);
    whole, fraction := s[..n], s[n..MantissaRun(s)];
    assert s[..MantissaRun(s)] == whole + fraction;
    assert fraction != "" ==> fraction[1..] == s[n + 1..][..DigitRun(s[n + 1..])];
  }

  lemma SplitExponent(s: string) returns (mark: string, sign: string, digits: string)
    requires s == "" || IsExponent(s)
    ensures IsExponentParts(mark, sign, digits) && s == mark + (sign + digits)
  {
    if s == "" {
      mark, sign, digits := "", "", "";
    } else {
      sign := SplitSign(s[1..]);
      mark, digits := [s[0]], Unsigned(s[1..]);
      assert s == mark + s[1..];
    }
  }

  lemma NumberIsSpelled(s: string)
    returns (sign: string, whole: string, fraction: string, mark: string, expSign: string, exponent: string)
    requires IsNumber(s)
    ensures SpellsNumber(s, sign, whole, fraction, mark, expSign, exponent)
  {
    hide IsSignText;
    hide IsMantissa;
    hide IsExponentParts;
    hide IsExponent;
    hide Unsigned;
    hide MantissaRun;
    var body := Unsigned(s);
    var n := MantissaRun(body);
    sign := SplitSign(s);
    whole, fraction := SplitMantissa(body);
    mark, expSign, exponent := SplitExponent(body[n..]);
    assert body == body[..n] + body[n..];
  }

  /** The search for a number takes the longest run at each place; it succeeds exactly on the texts
      that fall into the parts of the pattern in some way. */
  lemma NumberExactly(s: string)
    ensures IsNumber(s) <==> exists sign, whole, fraction, mark, expSign, exponent ::
      SpellsNumber(s, sign, whole, fraction, mark, expSign, exponent)
  {
    hide IsNumber;
    hide SpellsNumber;
    if IsNumber(s) {
      var sign, whole, fraction, mark, expSign, exponent := NumberIsSpelled(s);
    }
    if sign, whole, fraction, mark, expSign, exponent :|
      SpellsNumber(s, sign, whole, fraction, mark, expSign, exponent)
    {
      NumberSpelled(s, sign, whole, fraction, mark, expSign, exponent);
    }
  }

  /** A value is a number, an infinity with or without a sign, or not a number. */
  lemma ValueExactly(s: string)
    ensures IsValue(s) <==>
      || s == "Inf" || s == "+Inf" || s == "-Inf" || s == "NaN"
      || exists sign, whole, fraction, mark, expSign, exponent ::
           SpellsNumber(s, sign, whole, fraction, mark, expSign, exponent)
  {
    hide IsNumber;
    hide SpellsNumber;
    NumberExactly(s);
    InfinityExactly(s);
  }

  lemma InfinityExactly(s: string)
    ensures Unsigned(s) == "Inf" <==> s == "Inf" || s == "+Inf" || s == "-Inf"
  {
    if s != "" && IsSign(s[0]) {
      assert s == [s[0]] + s[1..];
    }
    assert "+Inf"[1..] == "Inf" && "-Inf"[1..] == "Inf";
  }

  /** The sample on a line; blank lines, comments and lines that do not match hold none. */
  function ParseLine(raw: string): seq<Sample> {
    var line := Strip(raw);
    if line == [] || line[0] == '#' then []
    else
      match MatchSample(line)
      case Some(x) => [x]
      case None => []
  }

  function SamplesOf(lines: seq<string>): seq<Sample> {
    if lines == [] then [] else ParseLine(lines[0]) + SamplesOf(lines[1..])
  }

  function SamplesIn(text: string): seq<Sample> {
    SamplesOf(SplitLines(text))
  }

  lemma SamplesStep(lines: seq<string>, i: nat)
    requires i < |lines|
    ensures SamplesOf(lines[i..]) == ParseLine(lines[i]) + SamplesOf(lines[i + 1..])
  {
    hide ParseLine;
    assert lines[i..][1..] == lines[i + 1..];
  }

  method ParseSamples(text: string) returns (samples: seq<Sample>)
    ensures samples == SamplesIn(text)
  {
    hide SamplesOf;
    hide MatchSample;
    hide Strip;
    samples := [];
    var lines := SplitLines(text);
    for i := 0 to |lines|
      invariant samples + SamplesOf(lines[i..]) == SamplesOf(lines)
    {
      SamplesStep(lines, i);
      ghost var rest := SamplesOf(lines[i + 1..]);
      assert samples + (ParseLine(lines[i]) + rest) == samples + ParseLine(lines[i]) + rest;
      var line := Strip(lines[i]);
      if line != [] && line[0] != '#' {
        var sample := MatchSample(line);
        if sample.Some? {
          samples := samples + [sample.value];
        }
      }
    }
    NoLines(lines);
  }

  lemma NoLines(lines: seq<string>)
    ensures SamplesOf(lines[|lines|..]) == []
  {}

  // ----- Concatenating texts -----

  lemma BlankLine()
    ensures ParseLine("") == []
  {}

  lemma {:induction false} LineLengthPrefix(a: string, b: string)
    requires LineLength(a) < |a|
    ensures LineLength(a + b) == LineLength(a)
  {
    if !IsLineBreak(a[0]) {
      assert (a + b)[1..] == a[1..] + b;
      LineLengthPrefix(a[1..], b);
    }
  }

  /** What is left of a text after its first line. */
  function AfterLine(s: string): (r: string)
    requires LineLength(s) < |s|
    ensures |r| < |s|
  {
    s[LineLength(s)..][BreakLength(s[LineLength(s)..])..]
  }

  lemma SplitFirstLine(s: string)
    requires LineLength(s) < |s|
    ensures SplitLines(s) == [s[..LineLength(s)]] + SplitLines(AfterLine(s))
  {}

  lemma BreakLengthConcat(t: string, b: string)
    requires t != []
    ensures var k := BreakLength(t + "\n" + b);
      (t + "\n" + b)[k..] == if t == "\r" then b else t[BreakLength(t)..] + "\n" + b
  {
    var s := t + "\n" + b;
    if t == "\r" {
      assert s[0] == '\r' && s[1] == '\n';
    } else {
      assert s[0] == t[0] && (|t| > 1 ==> s[1] == t[1]);
      assert BreakLength(s) == BreakLength(t);
    }
  }

  lemma SuffixConcat(a: string, n: nat, b: string)
    requires n <= |a|
    ensures (a + "\n" + b)[n..] == a[n..] + "\n" + b && (a + "\n" + b)[..n] == a[..n]
  {}

  lemma AfterLineConcat(a: string, b: string)
    requires LineLength(a) < |a|
    ensures LineLength(a + "\n" + b) == LineLength(a)
    ensures AfterLine(a + "\n" + b) == if a[LineLength(a)..] == "\r" then b else AfterLine(a) + "\n" + b
  {
    assert a + "\n" + b == a + ("\n" + b);
    LineLengthPrefix(a, "\n" + b);
    hide LineLength;
    hide BreakLength;
    SuffixConcat(a, LineLength(a), b);
    BreakLengthConcat(a[LineLength(a)..], b);
  }

  lemma SamplesCons(line: string, lines: seq<string>)
    ensures SamplesOf([line] + lines) == ParseLine(line) + SamplesOf(lines)
  {
    hide ParseLine;
    assert ([line] + lines)[1..] == lines;
  }

  lemma SamplesConcatLine(a: string, b: string)
    requires OneLine(a)
    ensures SamplesIn(a + "\n" + b) == SamplesIn(a) + SamplesIn(b)
  {
    hide ParseLine;
    hide SamplesOf;
    hide SplitLines;
    SplitLinesFirst(a, b);
    SamplesCons(a, SplitLines(b));
    OnlyLine(a);
  }

  lemma OnlyLine(a: string)
    requires OneLine(a)
    ensures SamplesIn(a) == ParseLine(a)
  {
    hide ParseLine;
    BlankLine();
    SamplesCons(a, []);
    NoLines([]);
    assert [a] + [] == [a];
    assert LineLength(a) == |a|;
  }

  /** Joining two texts by a line feed joins their samples. */
  lemma {:induction false} SamplesConcat(a: string, b: string)
    ensures SamplesIn(a + "\n" + b) == SamplesIn(a) + SamplesIn(b)
    decreases |a|
  {
    hide ParseLine;
    hide SamplesOf;
    hide SplitLines;
    hide AfterLine;
    var n := LineLength(a);
    if n == |a| {
      SamplesConcatLine(a, b);
    } else {
      var s, rest := a + "\n" + b, AfterLine(a);
      AfterLineConcat(a, b);
      SuffixConcat(a, n, b);
      SplitFirstLine(a);
      SplitFirstLine(s);
      SamplesCons(a[..n], SplitLines(rest));
      SamplesCons(a[..n], SplitLines(AfterLine(s)));
      if a[n..] == "\r" {
        LoneReturn(a);
        NoLines([]);
      } else {
        SamplesConcat(rest, b);
      }
    }
  }

  lemma LoneReturn(a: string)
    requires LineLength(a) < |a| && a[LineLength(a)..] == "\r"
    ensures AfterLine(a) == "" && SplitLines(AfterLine(a)) == []
  {}

  // ----- Writing samples and reading them back -----

  ghost predicate GoodSample(x: Sample) {
    IsName(x.name) && Distinct(x.labels) && GoodLabels(x.labels) && IsValue(x.value)
  }

  function RenderBraces(labels: Dict<string, string>): string {
    if labels == [] then "" else "{" + RenderLabels(labels) + "}"
  }

  function RenderSample(x: Sample): string {
    x.name + RenderBraces(x.labels) + " " + x.value
  }

  /** No white space, hence no line break. */
  ghost predicate Solid(s: string) {
    forall i :: 0 <= i < |s| ==> !IsSpace(s[i])
  }

  lemma SolidConcat(a: string, b: string)
    ensures Solid(a + b) <==> Solid(a) && Solid(b)
  {
    if Solid(a + b) {
      assert forall i :: 0 <= i < |a| ==> (a + b)[i] == a[i];
      assert forall i :: 0 <= i < |b| ==> (a + b)[|a| + i] == b[i];
    }
  }

  lemma SolidDigits(s: string)
    ensures Solid(s[..DigitRun(s)])
  {
    assert forall c :: IsDigit(c) ==> !IsSpace(c);
  }

  lemma SolidMantissa(s: string)
    ensures Solid(s[..MantissaRun(s)])
  {
    var n := DigitRun(s);
    SolidDigits(s);
    if n > 0 && n < |s| && s[n] == '.' {
      var m := DigitRun(s[n + 1..]);
      SolidDigits(s[n + 1..]);
      SolidConcat(s[..n] + ".", s[n + 1..][..m]);
      SolidConcat(s[..n], ".");
      assert s[..MantissaRun(s)] == s[..n] + "." + s[n + 1..][..m];
    } else if n == 0 && MantissaRun(s) > 0 {
      var m := DigitRun(s[1..]);
      SolidDigits(s[1..]);
      SolidConcat(".", s[1..][..m]);
      assert s[..MantissaRun(s)] == "." + s[1..][..m];
    }
  }

  lemma SolidUnsigned(s: string)
    requires Solid(Unsigned(s))
    ensures Solid(s)
  {
    if Unsigned(s) != s {
      SolidConcat([s[0]], Unsigned(s));
      assert s == [s[0]] + Unsigned(s);
    }
  }

  lemma SolidExponent(s: string)
    requires IsExponent(s)
    ensures Solid(s)
  {
    var u := Unsigned(s[1..]);
    SolidDigits(u);
    assert u[..DigitRun(u)] == u;
    SolidUnsigned(s[1..]);
    SolidConcat([s[0]], s[1..]);
    assert s == [s[0]] + s[1..];
  }

  lemma SolidNumber(s: string)
    requires IsNumber(s)
    ensures s != "" && Solid(s)
  {
    hide Solid;
    hide Unsigned;
    hide MantissaRun;
    hide IsExponent;
    var body := Unsigned(s);
    var n := MantissaRun(body);
    SolidMantissa(body);
    if n == |body| {
      assert body[..n] == body;
    } else {
      SolidExponent(body[n..]);
      SolidConcat(body[..n], body[n..]);
      assert body == body[..n] + body[n..];
    }
    SolidUnsigned(s);
    UnsignedShorter(s);
  }

  lemma UnsignedShorter(s: string)
    ensures |Unsigned(s)| <= |s|
  {}

  lemma SolidName(s: string)
    requires Unsigned(s) == "Inf" || s == "NaN"
    ensures s != "" && Solid(s)
  {
    if Unsigned(s) == "Inf" {
      SolidUnsigned(s);
    }
  }

  lemma SolidValue(s: string)
    requires IsValue(s)
    ensures s != "" && Solid(s)
  {
    hide IsNumber;
    hide Unsigned;
    hide Solid;
    if IsNumber(s) {
      SolidNumber(s);
    } else {
      SolidName(s);
    }
  }

  lemma {:induction false} NameRunOf(name: string, rest: string)
    requires forall i :: 0 <= i < |name| ==> IsNameChar(name[i])
    requires rest != [] && !IsNameChar(rest[0])
    ensures NameRun(name + rest) == |name|
  {
    if name == [] {
      assert name + rest == rest;
    } else {
      assert (name + rest)[1..] == name[1..] + rest;
      NameRunOf(name[1..], rest);
    }
  }

  lemma MatchSpacedValue(name: string, labels: string, value: string)
    requires IsValue(value)
    ensures MatchValue(name, labels, " " + value) == Some(Sample(name, LabelsOf(labels), value))
  {
    hide IsValue;
    hide LabelsOf;
    SolidValue(value);
    assert !IsSpace(value[0]) && SpaceRun(value) == 0;
    assert (" " + value)[1..] == value;
  }

  lemma MatchPlain(name: string, value: string)
    requires IsName(name) && IsValue(value)
    ensures MatchSample(name + (" " + value)) == Some(Sample(name, [], value))
  {
    hide IsValue;
    hide MatchValue;
    var rest := " " + value;
    var line := name + rest;
    NameRunOf(name, rest);
    assert line[0] == name[0] && line[..|name|] == name && line[|name|..] == rest;
    MatchSpacedValue(name, "", value);
  }

  lemma MatchBraces(name: string, labels: string, value: string)
    requires IsName(name) && '}' !in labels && IsValue(value)
    ensures MatchSample(name + ("{" + labels + "}" + " " + value)) == Some(Sample(name, LabelsOf(labels), value))
  {
    hide IsValue;
    hide MatchValue;
    hide LabelsOf;
    var rest := "{" + labels + "}" + " " + value;
    var line := name + rest;
    NameRunOf(name, rest);
    assert line[0] == name[0] && line[..|name|] == name && line[|name|..] == rest;
    BraceAt(labels, " " + value);
    assert rest == "{" + labels + "}" + (" " + value);
    MatchSpacedValue(name, labels, value);
  }

  lemma BraceAt(labels: string, after: string)
    requires '}' !in labels
    ensures var rest, end := "{" + labels + "}" + after, |labels| + 1;
      IndexOf(rest, '}') == end && rest[1..end] == labels && rest[end + 1..] == after
  {
    var rest, end := "{" + labels + "}" + after, |labels| + 1;
    assert rest[end] == '}';
    assert forall i :: 0 <= i < |labels| ==> rest[i + 1] == labels[i];
  }

  // ----- What a line spells -----

  /** How the pattern reads a sample: a name, an optional label list in braces, white space, a value. */
  ghost predicate Spells(line: string, x: Sample, braced: bool, labels: string, space: string) {
    && IsName(x.name) && IsValue(x.value) && x.labels == LabelsOf(labels)
    && space != "" && (forall i :: 0 <= i < |space| ==> IsSpace(space[i]))
    && (if braced then '}' !in labels else labels == "")
    && line == x.name + ((if braced then "{" + labels + "}" else "") + (space + x.value))
  }

  lemma {:induction false} SpaceRunStops(space: string, rest: string)
    requires forall i :: 0 <= i < |space| ==> IsSpace(space[i])
    requires rest == [] || !IsSpace(rest[0])
    ensures SpaceRun(space + rest) == |space|
  {
    if space == [] {
      assert space + rest == rest;
    } else {
      assert (space + rest)[1..] == space[1..] + rest;
      SpaceRunStops(space[1..], rest);
    }
  }

  lemma {:induction false} SpaceRunIsSpace(s: string)
    ensures forall i :: 0 <= i < SpaceRun(s) ==> IsSpace(s[i])
  {
    if s != [] && IsSpace(s[0]) {
      SpaceRunIsSpace(s[1..]);
    }
  }

  lemma SpelledValue(name: string, labels: string, space: string, value: string)
    requires IsValue(value) && space != "" && forall i :: 0 <= i < |space| ==> IsSpace(space[i])
    ensures MatchValue(name, labels, space + value) == Some(Sample(name, LabelsOf(labels), value))
  {
    hide IsValue;
    hide LabelsOf;
    SolidValue(value);
    assert !IsSpace(value[0]);
    SpaceRunStops(space, value);
    assert (space + value)[|space|..] == value;
  }

  lemma MatchSpelled(line: string, x: Sample, braced: bool, labels: string, space: string)
    requires Spells(line, x, braced, labels, space)
    ensures MatchSample(line) == Some(x)
  {
    hide IsValue;
    hide MatchValue;
    hide LabelsOf;
    var after := space + x.value;
    var rest := (if braced then "{" + labels + "}" else "") + after;
    assert !IsNameChar(rest[0]) by {
      SpacesEndNames();
      assert after[0] == space[0];
    }
    NameRunOf(x.name, rest);
    assert line[0] == x.name[0] && line[..|x.name|] == x.name && line[|x.name|..] == rest;
    SpelledValue(x.name, labels, space, x.value);
    if braced {
      BraceAt(labels, after);
      assert rest == "{" + labels + "}" + after;
    } else {
      assert rest == after;
    }
  }

  lemma SpacesEndNames()
    ensures forall c :: IsSpace(c) ==> !IsNameChar(c) && c != '{'
  {}

  lemma MatchedValue(name: string, labels: string, s: string) returns (space: string)
    requires MatchValue(name, labels, s).Some?
    ensures var x := MatchValue(name, labels, s).value;
      && x.name == name && x.labels == LabelsOf(labels) && IsValue(x.value)
      && space != "" && (forall i :: 0 <= i < |space| ==> IsSpace(space[i])) && s == space + x.value
  {
    hide IsValue;
    hide LabelsOf;
    space := s[..SpaceRun(s)];
    SpaceRunIsSpace(s);
  }

  lemma NameSplit(line: string)
    requires line != [] && IsNameStart(line[0])
    ensures IsName(line[..NameRun(line)]) && line == line[..NameRun(line)] + line[NameRun(line)..]
  {}

  lemma BracesSplit(rest: string, end: nat)
    requires 0 < end < |rest| && rest[0] == '{' && rest[end] == '}' && forall i :: 0 <= i < end ==> rest[i] != '}'
    ensures '}' !in rest[1..end] && rest == "{" + rest[1..end] + "}" + rest[end + 1..]
  {
    assert rest[..1] == "{" && rest[end..end + 1] == "}";
    assert rest == rest[..1] + rest[1..end] + rest[end..end + 1] + rest[end + 1..];
  }

  lemma MatchIsSpelled(line: string) returns (braced: bool, labels: string, space: string)
    requires MatchSample(line).Some?
    ensures Spells(line, MatchSample(line).value, braced, labels, space)
  {
    hide IsValue;
    hide MatchValue;
    hide LabelsOf;
    hide IsName;
    hide IsSpace;
    hide NameRun;
    hide IndexOf;
    NameSplit(line);
    var name, rest := line[..NameRun(line)], line[NameRun(line)..];
    braced := rest != [] && rest[0] == '{';
    if braced {
      var end := IndexOf(rest, '}');
      BracesSplit(rest, end);
      labels := rest[1..end];
      space := MatchedValue(name, labels, rest[end + 1..]);
      SpellBraced(name, labels, rest[end + 1..]);
    } else {
      labels := "";
      space := MatchedValue(name, labels, rest);
      assert "" + rest == rest;
    }
  }

  lemma SpellBraced(name: string, labels: string, after: string)
    ensures name + ("{" + labels + "}" + after) == name + (("{" + labels + "}") + after)
  {}

  /** The match finds a sample exactly when the line spells it in some way; so no line spells two. */
  lemma MatchExactly(line: string, x: Sample)
    ensures MatchSample(line) == Some(x) <==> exists braced, labels, space :: Spells(line, x, braced, labels, space)
  {
    hide MatchSample;
    hide Spells;
    if MatchSample(line) == Some(x) {
      var braced, labels, space := MatchIsSpelled(line);
    }
    if braced, labels, space :| Spells(line, x, braced, labels, space) {
      MatchSpelled(line, x, braced, labels, space);
    }
  }

  lemma ParseMatched(line: string, x: Sample)
    requires line != "" && !IsSpace(line[0]) && !IsSpace(line[|line| - 1]) && line[0] != '#'
    requires MatchSample(line) == Some(x)
    ensures ParseLine(line) == [x]
  {
    hide MatchSample;
    hide IsSpace;
    hide Strip;
    StripNothing(line);
  }

  /** Text that can stand inside the braces of a sample line. */
  ghost predicate IsInner(s: string) {
    forall c :: c in s ==> c != '}' && !IsLineBreak(c)
  }

  ghost predicate InnerLabels(labels: Dict<string, string>) {
    forall i :: 0 <= i < |labels| ==> IsInner(labels[i].key) && IsInner(labels[i].value)
  }

  lemma {:induction false} InnerRendered(labels: Dict<string, string>)
    requires InnerLabels(labels)
    ensures '}' !in RenderLabels(labels) && OneLine(RenderLabels(labels))
  {
    if labels != [] {
      assert IsInner(labels[0].key) && IsInner(labels[0].value);
      InnerIsPlain(labels[0].key);
      InnerIsPlain(labels[0].value);
      hide IsInner;
      assert '}' !in RenderLabel(labels[0]) && OneLine(RenderLabel(labels[0]));
      if |labels| > 1 {
        InnerRendered(labels[1..]);
      }
    }
  }

  lemma InnerIsPlain(s: string)
    requires IsInner(s)
    ensures '}' !in s && OneLine(s)
  {
    forall i | 0 <= i < |s|
      ensures !IsLineBreak(s[i])
    {
      assert s[i] in s;
    }
  }

  lemma BracesOneLine(labels: Dict<string, string>)
    requires OneLine(RenderLabels(labels))
    ensures OneLine(RenderBraces(labels))
  {
    hide RenderLabels;
  }

  /** Reading back a sample whose parts can stand on a line changes at most its labels. */
  lemma ReadInner(x: Sample)
    requires IsName(x.name) && IsValue(x.value) && InnerLabels(x.labels)
    ensures OneLine(RenderSample(x))
    ensures ParseLine(RenderSample(x)) == [Sample(x.name, LabelsOf(RenderLabels(x.labels)), x.value)]
  {
    hide IsName;
    hide IsValue;
    hide MatchSample;
    hide ParseLine;
    hide LabelsOf;
    hide RenderLabels;
    hide IsLineBreak;
    hide IsSpace;
    var labels := RenderLabels(x.labels);
    NamePlain(x.name);
    NameNotEmpty(x.name);
    SolidValue(x.value);
    BreaksAreSpaces(x.value);
    InnerRendered(x.labels);
    BracesOneLine(x.labels);
    RenderedEnds(x.name, RenderBraces(x.labels), x.value);
    RenderedOneLine(x.name, RenderBraces(x.labels), x.value);
    StartsNoComment(RenderSample(x), x.name);
    var back := Sample(x.name, LabelsOf(labels), x.value);
    if x.labels == [] {
      NothingRendered();
      assert RenderSample(x) == x.name + (" " + x.value);
      MatchPlain(x.name, x.value);
    } else {
      assert RenderSample(x) == x.name + ("{" + labels + "}" + " " + x.value);
      MatchBraces(x.name, labels, x.value);
    }
    ParseMatched(RenderSample(x), back);
  }

  lemma NothingRendered()
    ensures RenderLabels([]) == "" && LabelsOf("") == []
  {}

  /** A rendered sample is one line, and reading that line gives back the sample. */
  lemma ParseRendered(x: Sample)
    requires GoodSample(x)
    ensures OneLine(RenderSample(x)) && ParseLine(RenderSample(x)) == [x]
  {
    hide IsName;
    hide IsValue;
    hide ParseLine;
    hide GoodLabels;
    hide InnerLabels;
    hide LabelsOf;
    hide RenderSample;
    GoodIsInner(x.labels);
    GoodIsReadable(x.labels);
    LabelRoundTrip(x.labels);
    ReadInner(x);
  }

  lemma GoodIsInner(labels: Dict<string, string>)
    requires GoodLabels(labels)
    ensures InnerLabels(labels)
  {
    hide IsName;
    hide IsLabelValue;
    forall i | 0 <= i < |labels|
      ensures IsInner(labels[i].key) && IsInner(labels[i].value)
    {
      NamePlain(labels[i].key);
      ValuePlain(labels[i].value);
    }
  }

  lemma RenderedEnds(name: string, braces: string, value: string)
    requires name != "" && value != ""
    ensures var line := name + braces + " " + value;
      line[0] == name[0] && line[|line| - 1] == value[|value| - 1]
  {}

  lemma RenderedOneLine(name: string, braces: string, value: string)
    requires OneLine(name) && OneLine(braces) && OneLine(value)
    ensures OneLine(name + braces + " " + value)
  {}

  lemma StartsNoComment(line: string, name: string)
    requires line != "" && name != "" && '#' !in name && line[0] == name[0]
    ensures line[0] != '#'
  {
    assert name[0] in name;
  }

  lemma BreaksAreSpaces(s: string)
    requires Solid(s)
    ensures OneLine(s)
  {}

  /** A line of an exposition text: a sample, a comment, or white space. */
  datatype Line = Of(sample: Sample) | Comment(text: string) | Blank(space: string)

  ghost predicate GoodLine(l: Line) {
    match l
    case Of(x) => GoodSample(x)
    case Comment(text) => OneLine(text)
    case Blank(space) => OneLine(space) && forall i :: 0 <= i < |space| ==> IsSpace(space[i])
  }

  function RenderLine(l: Line): string {
    match l
    case Of(x) => RenderSample(x)
    case Comment(text) => "#" + text
    case Blank(space) => space
  }

  function RenderText(lines: seq<Line>): string {
    if lines == [] then "" else RenderLine(lines[0]) + "\n" + RenderText(lines[1..])
  }

  function SamplesAmong(lines: seq<Line>): seq<Sample> {
    if lines == [] then []
    else (if lines[0].Of? then [lines[0].sample] else []) + SamplesAmong(lines[1..])
  }

  lemma {:induction false} TrimLeftAll(s: string)
    requires forall i :: 0 <= i < |s| ==> IsSpace(s[i])
    ensures TrimLeft(s, IsSpace) == ""
  {
    if s != [] {
      TrimLeftAll(s[1..]);
    }
  }

  lemma StripKeepsHash(text: string)
    ensures var t := Strip("#" + text); t != "" && t[0] == '#'
  {
    TrimStops("#" + text, IsSpace);
    TrimRightKeepsFirst("#" + text);
  }

  lemma {:induction false} TrimRightKeepsFirst(s: string)
    requires s != [] && !IsSpace(s[0])
    ensures var t := TrimRight(s, IsSpace); t != "" && t[0] == s[0]
  {
    if IsSpace(s[|s| - 1]) {
      TrimRightKeepsFirst(s[..|s| - 1]);
    }
  }

  lemma ParseRenderedLine(l: Line)
    requires GoodLine(l)
    ensures OneLine(RenderLine(l))
    ensures ParseLine(RenderLine(l)) == if l.Of? then [l.sample] else []
  {
    hide Strip;
    match l
    case Of(x) => ParseRendered(x);
    case Comment(text) => StripKeepsHash(text);
    case Blank(space) => StripBlank(space);
  }

  lemma StripBlank(s: string)
    requires forall i :: 0 <= i < |s| ==> IsSpace(s[i])
    ensures Strip(s) == ""
  {
    TrimLeftAll(s);
    TrimStops("", IsSpace);
  }

  /** Reading a rendered text gives back its samples in order, with comments and blank lines inserted
      anywhere. */
  lemma {:induction false} TextRoundTrip(lines: seq<Line>)
    requires forall i :: 0 <= i < |lines| ==> GoodLine(lines[i])
    ensures SamplesIn(RenderText(lines)) == SamplesAmong(lines)
  {
    if lines != [] {
      hide ParseLine;
      hide SplitLines;
      hide SamplesOf;
      hide RenderLine;
      hide GoodLine;
      ParseRenderedLine(lines[0]);
      SplitLinesFirst(RenderLine(lines[0]), RenderText(lines[1..]));
      SamplesCons(RenderLine(lines[0]), SplitLines(RenderText(lines[1..])));
      TextRoundTrip(lines[1..]);
    } else {
      assert SplitLines("") == [];
    }
  }

  // ----- Exactly which samples read back -----

  lemma LabelInner(part: string)
    requires IsInner(part)
    ensures IsInner(LabelKey(part)) && IsInner(LabelValue(part))
  {
    hide Strip;
    var n := IndexOf(part, '=');
    var value := if n < |part| then part[n + 1..] else "";
    assert IsInner(part[..n]) && IsInner(value);
    StripStable(part[..n]);
    StripStable(value);
    TrimLeftEnds(Strip(value), IsQuote);
    TrimRightEnds(TrimLeft(Strip(value), IsQuote), IsQuote);
    hide TrimLeft;
    hide TrimRight;
  }

  lemma {:induction false} PartsInner(s: string)
    requires IsInner(s)
    ensures forall p :: p in SplitLabels(s) ==> IsInner(p)
    decreases |s|
  {
    var n := Cut(s);
    assert IsInner(s[..n]);
    if n < |s| {
      assert IsInner(s[n + 1..]);
      PartsInner(s[n + 1..]);
    }
  }

  lemma {:induction false} PutInner(d: Dict<string, string>, k: string, v: string)
    requires InnerLabels(d) && IsInner(k) && IsInner(v)
    ensures InnerLabels(Put(d, k, v))
  {
    hide IsInner;
    if d != [] && d[0].key != k {
      PutInner(d[1..], k, v);
      var rest := Put(d[1..], k, v);
      forall i | 0 <= i < |rest| + 1
        ensures IsInner(([d[0]] + rest)[i].key) && IsInner(([d[0]] + rest)[i].value)
      {
        if i > 0 {
          assert ([d[0]] + rest)[i] == rest[i - 1];
        }
      }
    }
  }

  lemma {:induction false} PutLabelsInner(parts: seq<string>)
    requires forall p :: p in parts ==> IsInner(p)
    ensures InnerLabels(PutLabels(parts))
  {
    hide IsInner;
    hide LabelKey;
    hide LabelValue;
    if parts != [] {
      var last := parts[|parts| - 1];
      assert last in parts;
      PutLabelsInner(parts[..|parts| - 1]);
      LabelInner(last);
      PutInner(PutLabels(parts[..|parts| - 1]), LabelKey(last), LabelValue(last));
    }
  }

  lemma LabelsInner(labels: string)
    requires IsInner(labels)
    ensures InnerLabels(LabelsOf(labels))
  {
    hide SplitLabels;
    hide PutLabels;
    if labels != "" {
      PartsInner(labels);
      PutLabelsInner(SplitLabels(labels));
    }
  }

  /** Everything a sample holds was on its line. */
  lemma MatchedInner(line: string)
    requires MatchSample(line).Some? && OneLine(line)
    ensures var x := MatchSample(line).value; IsName(x.name) && IsValue(x.value) && InnerLabels(x.labels)
  {
    hide MatchSample;
    hide IsName;
    hide IsValue;
    hide LabelsOf;
    hide IsLineBreak;
    var braced, labels, space := MatchIsSpelled(line);
    var x := MatchSample(line).value;
    if braced {
      assert line == x.name + "{" + labels + "}" + (space + x.value);
      MiddleInner(x.name + "{", labels, "}" + (space + x.value), line);
    }
    LabelsInner(labels);
  }

  lemma MiddleInner(before: string, labels: string, after: string, line: string)
    requires line == before + labels + after && OneLine(line) && '}' !in labels
    ensures IsInner(labels)
  {
    hide IsLineBreak;
    forall i | 0 <= i < |labels|
      ensures !IsLineBreak(labels[i])
    {
      assert line[|before| + i] == labels[i];
    }
  }

  lemma ParsedInner(raw: string, x: Sample)
    requires OneLine(raw) && ParseLine(raw) == [x]
    ensures IsName(x.name) && IsValue(x.value) && InnerLabels(x.labels)
  {
    hide MatchSample;
    hide Strip;
    hide IsName;
    hide IsValue;
    hide IsLineBreak;
    StripStable(raw);
    var line := Strip(raw);
    forall i | 0 <= i < |line|
      ensures !IsLineBreak(line[i])
    {
      assert line[i] in raw;
    }
    MatchedInner(line);
  }

  lemma {:induction false} LinesAreLines(s: string)
    ensures forall l :: l in SplitLines(s) ==> OneLine(l)
    decreases |s|
  {
    hide IsLineBreak;
    var n := LineLength(s);
    if s != [] && n < |s| {
      LinesAreLines(s[n..][BreakLength(s[n..])..]);
    }
  }

  lemma {:induction false} SampleHasLine(lines: seq<string>, x: Sample) returns (line: string)
    requires x in SamplesOf(lines)
    ensures line in lines && ParseLine(line) == [x]
  {
    hide ParseLine;
    if lines != [] && x in ParseLine(lines[0]) {
      line := lines[0];
      AtMostOne(line);
    } else {
      line := SampleHasLine(lines[1..], x);
    }
  }

  lemma AtMostOne(raw: string)
    ensures |ParseLine(raw)| <= 1
  {
    hide MatchSample;
    hide Strip;
  }

  /** A sample without quotes in its labels reads back from its rendered text exactly when its name and
      value fit the grammar, no label key occurs twice, is blank at an end, or holds a comma or an equals
      sign, and no label holds a closing brace or a line break. */
  lemma SampleReadsBackExactly(x: Sample)
    requires QuoteFree(x.labels)
    ensures SamplesIn(RenderSample(x)) == [x] <==>
      && IsName(x.name) && IsValue(x.value) && InnerLabels(x.labels)
      && Distinct(x.labels) && forall i :: 0 <= i < |x.labels| ==> IsKey(x.labels[i].key)
  {
    hide IsName;
    hide IsValue;
    hide IsKey;
    hide InnerLabels;
    hide Distinct;
    hide LabelsOf;
    hide RenderLabels;
    hide RenderSample;
    hide ParseLine;
    LabelsReadBackExactly(x.labels);
    if SamplesIn(RenderSample(x)) == [x] {
      LinesAreLines(RenderSample(x));
      assert x in SamplesOf(SplitLines(RenderSample(x)));
      var line := SampleHasLine(SplitLines(RenderSample(x)), x);
      ParsedInner(line, x);
    }
    if IsName(x.name) && IsValue(x.value) && InnerLabels(x.labels) {
      ReadInner(x);
      OnlyLine(RenderSample(x));
    }
  }

  /** A quote at the end of a label value is lost. */
  lemma QuoteIsLost()
    ensures LabelsOf(RenderLabels([Entry("a", "x\"")])) == [Entry("a", "x")]
  {
    var part := "a=\"x\"\"";
    assert RenderLabels([Entry("a", "x\"")]) == part;
    assert ',' !in part;
    NoCommaNoCut(part, false);
    assert SplitLabels(part) == [part];
    LostQuoteParts();
    assert [part][..0] == [];
  }

  lemma LostQuoteParts()
    ensures LabelKey("a=\"x\"\"") == "a" && LabelValue("a=\"x\"\"") == "x"
  {
    hide Trim;
    var part, quoted := "a=\"x\"\"", "\"x\"\"";
    assert part[1] == '=' && part[..1] == "a" && part[2..] == quoted;
    assert IndexOf(part, '=') == 1;
    StripNothing("a");
    StripNothing(quoted);
    TrimBoth("x");
    assert ['"'] + ("x" + ['"'] + ['"']) == quoted;
  }

  /** One quote before a text, and two after it. */
  lemma TrimBoth(s: string)
    requires s != "" && s[0] != '"' && s[|s| - 1] != '"'
    ensures Trim(['"'] + (s + ['"'] + ['"']), IsQuote) == s
  {
    hide TrimLeft;
    hide TrimRight;
    var once := s + ['"'];
    TrimDrops('"', once + ['"'], IsQuote);
    assert (once + ['"'])[0] == s[0];
    TrimStops(once + ['"'], IsQuote);
    TrimDrops('"', once, IsQuote);
    TrimDrops('"', s, IsQuote);
    TrimStops(s, IsQuote);
  }

  // ----- Extracting values -----

  const REQUIRED_METRICS: seq<string> := [
    "vllm_mlx_http_requests_total", "vllm_mlx_inference_requests_total", "vllm_mlx_prompt_tokens_total",
    "vllm_mlx_completion_tokens_total", "vllm_mlx_model_loaded", "vllm_mlx_engine_type",
    "vllm_mlx_scheduler_waiting_requests", "vllm_mlx_scheduler_running_requests", "vllm_mlx_metal_memory_bytes",
    "vllm_mlx_cache_type", "vllm_mlx_cache_hits", "vllm_mlx_cache_misses", "vllm_mlx_cache_hit_rate",
    "vllm_mlx_cache_memory_bytes", "vllm_mlx_cache_tokens_saved"]

  predicate HasName(samples: seq<Sample>, name: string) {
    exists x :: x in samples && x.name == name
  }

  /** The required names no sample has, in their order. */
  function Missing(samples: seq<Sample>, required: seq<string>): seq<string> {
    if required == [] then []
    else (if HasName(samples, required[0]) then [] else [required[0]]) + Missing(samples, required[1..])
  }

  predicate ContractPassed(text: string) {
    Missing(SamplesIn(text), REQUIRED_METRICS) == []
  }

  /** The number of the first sample with the name, or the default; how a literal text becomes a number
      is a parameter. */
  function SampleValue<T>(samples: seq<Sample>, name: string, number: string -> T, default: T): T {
    if samples == [] then default
    else if samples[0].name == name then number(samples[0].value)
    else SampleValue(samples[1..], name, number, default)
  }

  /** The value of each kind of a metric; a later sample replaces an earlier one of its kind. */
  function KindValues(samples: seq<Sample>, name: string): Dict<string, string> {
    if samples == [] then []
    else
      var before, x := KindValues(samples[..|samples| - 1], name), samples[|samples| - 1];
      match (if x.name == name then Get(x.labels, "kind") else None)
      case Some(kind) => Put(before, kind, x.value)
      case None => before
  }

  method CollectKindValues(samples: seq<Sample>, name: string) returns (values: Dict<string, string>)
    ensures values == KindValues(samples, name)
  {
    values := [];
    for i := 0 to |samples|
      invariant values == KindValues(samples[..i], name)
    {
      assert samples[..i + 1][..i] == samples[..i];
      var x := samples[i];
      if x.name == name {
        var kind := Get(x.labels, "kind");
        if kind.Some? {
          values := Put(values, kind.value, x.value);
        }
      }
    }
    assert samples[..|samples|] == samples;
  }

  lemma HasNameConcat(a: seq<Sample>, b: seq<Sample>, name: string)
    ensures HasName(a + b, name) <==> HasName(a, name) || HasName(b, name)
  {
    if HasName(a, name) {
      var x :| x in a && x.name == name;
      assert x in a + b;
    }
    if HasName(b, name) {
      var x :| x in b && x.name == name;
      assert x in a + b;
    }
  }

  /** A required name is missing from two texts together exactly when it is missing from both. */
  lemma {:induction false} MissingConcat(a: seq<Sample>, b: seq<Sample>, required: seq<string>)
    ensures Missing(a + b, required) == Missing(b, Missing(a, required))
  {
    if required != [] {
      hide HasName;
      HasNameConcat(a, b, required[0]);
      MissingConcat(a, b, required[1..]);
      if !HasName(a, required[0]) {
        assert Missing(a, required)[1..] == Missing(a, required[1..]);
      } else {
        assert Missing(a, required) == Missing(a, required[1..]);
      }
    }
  }

  lemma {:induction false} MissingExactly(samples: seq<Sample>, required: seq<string>, name: string)
    ensures name in Missing(samples, required) <==> name in required && !HasName(samples, name)
  {
    if required != [] {
      MissingExactly(samples, required[1..], name);
    }
  }

  /** The contract is met exactly when every required metric has a sample. */
  lemma ContractExactly(text: string)
    ensures ContractPassed(text) <==>
      forall name :: name in REQUIRED_METRICS ==> exists x :: x in SamplesIn(text) && x.name == name
  {
    hide SamplesIn;
    NoneMissing(SamplesIn(text), REQUIRED_METRICS);
  }

  lemma NoneMissing(samples: seq<Sample>, required: seq<string>)
    ensures Missing(samples, required) == [] <==> forall name :: name in required ==> HasName(samples, name)
  {
    var missing := Missing(samples, required);
    hide HasName;
    forall name
      ensures name in missing <==> name in required && !HasName(samples, name)
    {
      MissingExactly(samples, required, name);
    }
    hide Missing;
    if missing != [] {
      assert missing[0] in missing;
    }
  }

  /** Appending text, before or after, never makes a metric missing nor fails a passed contract. */
  lemma AppendingKeepsContract(a: string, b: string)
    ensures Missing(SamplesIn(a + "\n" + b), REQUIRED_METRICS)
         == Missing(SamplesIn(b), Missing(SamplesIn(a), REQUIRED_METRICS))
    ensures ContractPassed(a) || ContractPassed(b) ==> ContractPassed(a + "\n" + b)
  {
    hide SamplesIn;
    SamplesConcat(a, b);
    AppendedMissing(SamplesIn(a), SamplesIn(b), REQUIRED_METRICS);
  }

  lemma AppendedMissing(a: seq<Sample>, b: seq<Sample>, required: seq<string>)
    ensures Missing(a + b, required) == Missing(b, Missing(a, required))
    ensures Missing(a, required) == [] || Missing(b, required) == [] ==> Missing(a + b, required) == []
  {
    MissingConcat(a, b, required);
    if Missing(b, required) == [] {
      NothingMissing(a, b, required);
    }
  }

  lemma {:induction false} NothingMissing(a: seq<Sample>, b: seq<Sample>, required: seq<string>)
    requires Missing(b, required) == []
    ensures Missing(b, Missing(a, required)) == []
  {
    if required != [] {
      hide HasName;
      NothingMissing(a, b, required[1..]);
      if !HasName(a, required[0]) {
        assert Missing(a, required)[1..] == Missing(a, required[1..]);
      } else {
        assert Missing(a, required) == Missing(a, required[1..]);
      }
    }
  }

  /** Values are read first-wins: the value is that of the first sample with the name, and the default
      exactly when no sample has it. */
  lemma {:induction false} FirstValueWins<T>(
    a: seq<Sample>, x: Sample, b: seq<Sample>, name: string, number: string -> T, default: T)
    requires !HasName(a, name)
    ensures SampleValue(a, name, number, default) == default
    ensures x.name == name ==> SampleValue(a + [x] + b, name, number, default) == number(x.value)
  {
    if a == [] {
      assert a + [x] + b == [x] + b;
    } else {
      assert a[0] in a && (a + [x] + b)[1..] == a[1..] + [x] + b;
      assert forall y :: y in a[1..] ==> y in a;
      FirstValueWins(a[1..], x, b, name, number, default);
    }
  }

  /** The sample at `i` has the name and the kind, and no later sample has both. */
  ghost predicate LastOfKind(samples: seq<Sample>, name: string, kind: string, i: nat) {
    && i < |samples| && HasKind(samples[i], name, kind)
    && forall j :: i < j < |samples| ==> !HasKind(samples[j], name, kind)
  }

  ghost predicate HasKind(x: Sample, name: string, kind: string) {
    x.name == name && Get(x.labels, "kind") == Some(kind)
  }

  lemma LastOfKindSnoc(front: seq<Sample>, x: Sample, name: string, kind: string, value: string)
    ensures (exists i: nat :: LastOfKind(front + [x], name, kind, i) && (front + [x])[i].value == value) <==>
      if HasKind(x, name, kind) then x.value == value
      else exists i: nat :: LastOfKind(front, name, kind, i) && front[i].value == value
  {
    var samples := front + [x];
    hide HasKind;
    assert forall j :: 0 <= j < |front| ==> samples[j] == front[j];
    if HasKind(x, name, kind) {
      assert samples[|front|] == x;
      assert LastOfKind(samples, name, kind, |front|);
    } else {
      if i: nat :| LastOfKind(front, name, kind, i) && front[i].value == value {
        assert LastOfKind(samples, name, kind, i);
      }
      if i: nat :| LastOfKind(samples, name, kind, i) && samples[i].value == value {
        assert LastOfKind(front, name, kind, i);
      }
    }
  }

  /** The value of a kind is that of the last sample with the name and the kind; it is missing when no
      sample has both. */
  lemma {:induction false} KindsExactly(samples: seq<Sample>, name: string, kind: string, value: string)
    ensures Get(KindValues(samples, name), kind) == Some(value) <==>
      exists i: nat :: LastOfKind(samples, name, kind, i) && samples[i].value == value
  {
    if samples != [] {
      var front, x := samples[..|samples| - 1], samples[|samples| - 1];
      assert samples == front + [x];
      KindsExactly(front, name, kind, value);
      hide Get;
      hide Put;
      var k := if x.name == name then Get(x.labels, "kind") else None;
      if k.Some? {
        GetPut(KindValues(front, name), k.value, x.value, kind);
      }
      LastOfKindSnoc(front, x, name, kind, value);
    }
  }

  /** Kinds are read last-wins. */
  lemma {:induction false} LastKindWins(a: seq<Sample>, b: seq<Sample>, name: string, kind: string)
    ensures Get(KindValues(a + b, name), kind) ==
      if Get(KindValues(b, name), kind).Some? then Get(KindValues(b, name), kind) else Get(KindValues(a, name), kind)
  {
    if b == [] {
      assert a + b == a;
    } else {
      var front, x := b[..|b| - 1], b[|b| - 1];
      assert (a + b)[..|a + b| - 1] == a + front;
      LastKindWins(a, front, name, kind);
      var k := if x.name == name then Get(x.labels, "kind") else None;
      if k.Some? {
        GetPut(KindValues(a + front, name), k.value, x.value, kind);
        GetPut(KindValues(front, name), k.value, x.value, kind);
      }
    }
  }
}
