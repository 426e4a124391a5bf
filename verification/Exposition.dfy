/** The reader for metrics in the Prometheus text exposition format: the split of a label list, the
    grammar of a sample line, and the extraction of values. */
module Exposition {
  import opened Text
  import opened Dicts
  import opened JsonText

  // ----- Splitting a label list -----

  predicate EvenQuotes(s: string) {
    if s == [] then true else if s[0] == '"' then !EvenQuotes(s[1..]) else EvenQuotes(s[1..])
  }

  /** Index of the first comma with an even number of quotes ahead of it, as the lookahead of the
      splitting pattern demands; the length of the text if there is none. */
  function Cut(s: string): (n: nat)
    ensures n <= |s|
    ensures n < |s| ==> s[n] == ','
  {
    if s == [] || (s[0] == ',' && EvenQuotes(s[1..])) then 0 else 1 + Cut(s[1..])
  }

  function SplitLabels(s: string): (parts: seq<string>)
    ensures parts != [] && |parts[0]| == Cut(s)
    decreases |s|
  {
    var n := Cut(s);
    if n == |s| then [s] else [s[..n]] + SplitLabels(s[n + 1..])
  }

  /** The same search as a reader from left to right would make it, keeping track of quotes. */
  function ScanCut(s: string, inQuotes: bool): (n: nat)
    ensures n <= |s|
    ensures n < |s| ==> s[n] == ','
  {
    if s == [] || (s[0] == ',' && !inQuotes) then 0
    else 1 + ScanCut(s[1..], if s[0] == '"' then !inQuotes else inQuotes)
  }

  function ScanLabels(s: string): (parts: seq<string>)
    ensures parts != [] && |parts[0]| == ScanCut(s, false)
    decreases |s|
  {
    var n := ScanCut(s, false);
    if n == |s| then [s] else [s[..n]] + ScanLabels(s[n + 1..])
  }

  /** Looking ahead and keeping track agree while the quotes still to come close the open one. */
  lemma {:induction false} CutIsScan(s: string, inQuotes: bool)
    requires inQuotes <==> !EvenQuotes(s)
    ensures Cut(s) == ScanCut(s, inQuotes)
    ensures var n := Cut(s); n < |s| ==> EvenQuotes(s[n + 1..])
  {
    if s != [] && Cut(s) != 0 {
      CutIsScan(s[1..], if s[0] == '"' then !inQuotes else inQuotes);
      var n := Cut(s);
      if n < |s| {
        assert s[1..][(n - 1) + 1..] == s[n + 1..];
      }
    }
  }

  /** Otherwise they disagree at the very first comma. */
  lemma {:induction false} CutIsNotScan(s: string, inQuotes: bool)
    requires inQuotes <==> EvenQuotes(s)
    requires ',' in s
    ensures Cut(s) != ScanCut(s, inQuotes)
  {
    if s[0] != ',' {
      CutIsNotScan(s[1..], if s[0] == '"' then !inQuotes else inQuotes);
    }
  }

  lemma {:induction false} NoCommaNoCut(s: string, inQuotes: bool)
    requires ',' !in s
    ensures Cut(s) == |s| == ScanCut(s, inQuotes)
  {
    if s != [] {
      NoCommaNoCut(s[1..], if s[0] == '"' then !inQuotes else inQuotes);
    }
  }

  lemma {:induction false} SplitIsScan(s: string)
    requires EvenQuotes(s)
    ensures SplitLabels(s) == ScanLabels(s)
    decreases |s|
  {
    CutIsScan(s, false);
    if Cut(s) < |s| {
      SplitIsScan(s[Cut(s) + 1..]);
    }
  }

  /** The lookahead split is the left-to-right split exactly on the texts whose quotes are paired,
      and on those without a comma. */
  lemma SplitRefinesScan(s: string)
    ensures SplitLabels(s) == ScanLabels(s) <==> EvenQuotes(s) || ',' !in s
  {
    if EvenQuotes(s) {
      SplitIsScan(s);
    } else if ',' in s {
      CutIsNotScan(s, false);
    } else {
      NoCommaNoCut(s, false);
    }
  }

  /** A label list with a quote that is not closed: the lookahead split cuts at the comma after it, where
      the left-to-right split sees the comma in quotes. */
  lemma UnclosedQuote()
    ensures SplitLabels("a=\"x,b") == ["a=\"x", "b"] && ScanLabels("a=\"x,b") == ["a=\"x,b"]
  {
    var first, rest, s := "a=\"x", "b", "a=\"x,b";
    assert s == first + ("," + rest);
    CommaPassed();
    assert s[..4] == first && s[5..] == rest;
  }

  lemma CommaPassed()
    ensures Cut("a=\"x,b") == 4 && Cut("b") == 1 && ScanCut("a=\"x,b", false) == 6
  {
    var t0, t1, t2, t3, t4, t5 := "a=\"x,b", "=\"x,b", "\"x,b", "x,b", ",b", "b";
    assert t0[1..] == t1 && t1[1..] == t2 && t2[1..] == t3 && t3[1..] == t4 && t4[1..] == t5 && t5[1..] == "";
    assert EvenQuotes(t5) && ScanCut(t5, true) == 1 && Cut(t5) == 1;
    assert ScanCut(t4, true) == 2 && Cut(t4) == 0;
    assert ScanCut(t3, true) == 3 && Cut(t3) == 1;
    assert ScanCut(t2, false) == 4 && Cut(t2) == 2;
    assert ScanCut(t1, false) == 5 && Cut(t1) == 3;
  }

  // ----- Reading a label list -----

  function IndexOf(s: string, c: char): (n: nat)
    ensures n <= |s|
    ensures forall i :: 0 <= i < n ==> s[i] != c
    ensures n < |s| ==> s[n] == c
  {
    if s == [] || s[0] == c then 0 else 1 + IndexOf(s[1..], c)
  }

  function LabelKey(part: string): string {
    Strip(part[..IndexOf(part, '=')])
  }

  function LabelValue(part: string): string {
    var n := IndexOf(part, '=');
    Trim(Strip(if n < |part| then part[n + 1..] else ""), IsQuote)
  }

  lemma IndexAfter(k: string, c: char, v: string)
    requires c !in k
    ensures IndexOf(k, c) == |k| && IndexOf(k + [c] + v, c) == |k|
  {
    var s := k + [c] + v;
    assert s[|k|] == c && forall i :: 0 <= i < |k| ==> s[i] == k[i];
  }

  /** A part is cut at its first equals sign; around key and value white space is dropped, and around the
      value then quotes; a part without an equals sign has an empty value. */
  lemma PartExactly(k: string, v: string)
    requires '=' !in k
    ensures LabelKey(k) == Strip(k) && LabelValue(k) == ""
    ensures LabelKey(k + "=" + v) == Strip(k) && LabelValue(k + "=" + v) == Trim(Strip(v), IsQuote)
  {
    IndexAfter(k, '=', v);
    hide IndexOf;
    var s := k + "=" + v;
    assert s[..|k|] == k && s[|k| + 1..] == v && k[..|k|] == k;
    TrimStops("", IsSpace);
    TrimStops("", IsQuote);
  }

  function PutLabels(parts: seq<string>): Dict<string, string> {
    if parts == [] then []
    else
      var last := parts[|parts| - 1];
      Put(PutLabels(parts[..|parts| - 1]), LabelKey(last), LabelValue(last))
  }

  function LabelsOf(labels: string): Dict<string, string> {
    if labels == "" then [] else PutLabels(SplitLabels(labels))
  }

  method ParseLabels(labels: string) returns (parsed: Dict<string, string>)
    ensures parsed == LabelsOf(labels)
  {
    if labels == "" {
      return [];
    }
    parsed := [];
    var parts := SplitLabels(labels);
    for i := 0 to |parts|
      invariant parsed == PutLabels(parts[..i])
    {
      assert parts[..i + 1][..i] == parts[..i];
      parsed := Put(parsed, LabelKey(parts[i]), LabelValue(parts[i]));
    }
    assert parts[..|parts|] == parts;
  }

  // ----- Writing and reading back a label list -----

  predicate IsNameStart(c: char) {
    'a' <= c <= 'z' || 'A' <= c <= 'Z' || c == '_' || c == ':'
  }

  predicate IsNameChar(c: char) {
    IsNameStart(c) || IsDigit(c)
  }

  /** The characters of metric and label names, by their code points. */
  lemma NamesExactly(c: char)
    ensures var n := c as int;
      && (IsNameChar(c) <==> 0x30 <= n <= 0x3A || 0x41 <= n <= 0x5A || n == 0x5F || 0x61 <= n <= 0x7A)
      && (IsNameStart(c) <==> IsNameChar(c) && !(0x30 <= n <= 0x39))
  {}

  predicate IsName(s: string) {
    s != [] && IsNameStart(s[0]) && forall i :: 0 <= i < |s| ==> IsNameChar(s[i])
  }

  /** A label value may hold anything but quotes, closing braces and line breaks. */
  predicate IsLabelValue(s: string) {
    forall i :: 0 <= i < |s| ==> s[i] != '"' && s[i] != '}' && !IsLineBreak(s[i])
  }

  /** What the reader leaves of a key as it is; no quotes are needed around such text. */
  predicate IsKey(s: string) {
    '"' !in s && ',' !in s && '=' !in s && Strip(s) == s
  }

  function RenderLabel(entry: Entry<string, string>): string {
    entry.key + "=\"" + entry.value + "\""
  }

  function RenderLabels(labels: Dict<string, string>): string {
    if labels == [] then ""
    else if |labels| == 1 then RenderLabel(labels[0])
    else RenderLabel(labels[0]) + "," + RenderLabels(labels[1..])
  }

  lemma {:induction false} EvenQuotesConcat(a: string, b: string)
    ensures EvenQuotes(a + b) <==> (EvenQuotes(a) <==> EvenQuotes(b))
  {
    if a == [] {
      assert a + b == b;
    } else {
      assert (a + b)[1..] == a[1..] + b;
      EvenQuotesConcat(a[1..], b);
    }
  }

  lemma {:induction false} NoQuotesEven(s: string)
    requires '"' !in s
    ensures EvenQuotes(s)
  {
    if s != [] {
      NoQuotesEven(s[1..]);
    }
  }

  /** Text without quotes is passed over by the scan, if it has no comma or stands in quotes. */
  lemma {:induction false} ScanPasses(a: string, b: string, inQuotes: bool)
    requires '"' !in a && (inQuotes || ',' !in a)
    ensures ScanCut(a + b, inQuotes) == |a| + ScanCut(b, inQuotes)
  {
    if a == [] {
      assert a + b == b;
    } else {
      assert (a + b)[1..] == a[1..] + b;
      ScanPasses(a[1..], b, inQuotes);
    }
  }

  lemma NamePlain(s: string)
    requires IsName(s)
    ensures '"' !in s && ',' !in s && '=' !in s && '}' !in s && '{' !in s && '#' !in s && OneLine(s)
    ensures forall i :: 0 <= i < |s| ==> !IsSpace(s[i])
  {}

  lemma LabelEven(entry: Entry<string, string>)
    requires IsKey(entry.key) && '"' !in entry.value
    ensures EvenQuotes(RenderLabel(entry))
  {
    hide Strip;
    NoQuotesEven(entry.key);
    NoQuotesEven(entry.value);
    EvenQuotesConcat(entry.key + "=\"" + entry.value, "\"");
    EvenQuotesConcat(entry.key + "=\"", entry.value);
    EvenQuotesConcat(entry.key, "=\"");
    assert !EvenQuotes("\"") by {
      assert "\""[1..] == "";
    }
    assert !EvenQuotes("=\"") by {
      assert "=\""[1..] == "\"";
    }
  }

  lemma ValuePlain(s: string)
    requires IsLabelValue(s)
    ensures '"' !in s && '}' !in s && OneLine(s)
  {}

  lemma ScanQuote(rest: string, inQuotes: bool)
    ensures ScanCut("\"" + rest, inQuotes) == 1 + ScanCut(rest, !inQuotes)
  {
    assert ("\"" + rest)[1..] == rest;
  }

  lemma ScanLabel(entry: Entry<string, string>, rest: string)
    requires IsKey(entry.key) && '"' !in entry.value
    ensures ScanCut(RenderLabel(entry) + rest, false) == |RenderLabel(entry)| + ScanCut(rest, false)
  {
    hide Strip;
    hide ScanCut;
    var c := "\"" + rest;
    var b := "\"" + (entry.value + c);
    var before := entry.key + "=";
    assert RenderLabel(entry) + rest == before + b;
    ScanPasses(before, b, false);
    ScanQuote(entry.value + c, false);
    ScanPasses(entry.value, c, true);
    ScanQuote(rest, true);
  }

  lemma CutLabel(first: string, rest: string)
    requires ScanCut(first + ("," + rest), false) == |first| && EvenQuotes(first) && EvenQuotes(rest)
    ensures SplitLabels(first + ("," + rest)) == [first] + SplitLabels(rest)
    ensures EvenQuotes(first + ("," + rest))
  {
    hide ScanCut;
    var s := first + ("," + rest);
    assert ("," + rest)[1..] == rest;
    EvenQuotesConcat(first, "," + rest);
    CutIsScan(s, false);
    assert s[..|first|] == first && s[|first| + 1..] == rest;
  }

  lemma OnlyLabel(first: string)
    requires ScanCut(first, false) == |first| && EvenQuotes(first)
    ensures SplitLabels(first) == [first]
  {
    CutIsScan(first, false);
  }

  function RenderedParts(labels: Dict<string, string>): (parts: seq<string>)
    ensures |parts| == |labels| && forall i :: 0 <= i < |labels| ==> parts[i] == RenderLabel(labels[i])
  {
    if labels == [] then [] else [RenderLabel(labels[0])] + RenderedParts(labels[1..])
  }

  /** Keys the reader leaves as they are, and values without quotes. */
  ghost predicate ReadableLabels(labels: Dict<string, string>) {
    forall i :: 0 <= i < |labels| ==> IsKey(labels[i].key) && '"' !in labels[i].value
  }

  /** Names, and values that may stand on a sample line. */
  ghost predicate GoodLabels(labels: Dict<string, string>) {
    forall i :: 0 <= i < |labels| ==> IsName(labels[i].key) && IsLabelValue(labels[i].value)
  }

  lemma GoodIsReadable(labels: Dict<string, string>)
    requires GoodLabels(labels)
    ensures ReadableLabels(labels)
  {
    hide IsName;
    hide IsLabelValue;
    hide IsKey;
    forall i | 0 <= i < |labels|
      ensures IsKey(labels[i].key) && '"' !in labels[i].value
    {
      NameIsKey(labels[i].key);
      ValuePlain(labels[i].value);
    }
  }

  lemma NameIsKey(s: string)
    requires IsName(s)
    ensures IsKey(s)
  {
    NamePlain(s);
    StripNothing(s);
  }

  /** The rendered label list splits into the rendered labels. */
  lemma {:induction false} SplitRendered(labels: Dict<string, string>)
    requires labels != [] && ReadableLabels(labels)
    ensures EvenQuotes(RenderLabels(labels))
    ensures SplitLabels(RenderLabels(labels)) == RenderedParts(labels)
  {
    hide SplitLabels;
    hide EvenQuotes;
    hide ScanCut;
    hide RenderLabel;
    hide IsKey;
    var first := RenderLabel(labels[0]);
    LabelEven(labels[0]);
    if |labels| == 1 {
      ScanLabel(labels[0], "");
      assert first + "" == first;
      ScanNothing();
      OnlyLabel(first);
    } else {
      var rest := RenderLabels(labels[1..]);
      SplitRendered(labels[1..]);
      ScanLabel(labels[0], "," + rest);
      ScanComma(rest);
      CutLabel(first, rest);
      assert RenderLabels(labels) == first + ("," + rest);
    }
  }

  lemma ScanNothing()
    ensures ScanCut("", false) == 0
  {}

  lemma ScanComma(rest: string)
    ensures ScanCut("," + rest, false) == 0
  {}

  lemma TrimQuotes(s: string)
    requires '"' !in s
    ensures Trim("\"" + s + "\"", IsQuote) == s
  {
    hide TrimLeft;
    hide TrimRight;
    assert "\"" + s + "\"" == ['"'] + (s + ['"']);
    TrimDrops('"', s + ['"'], IsQuote);
    if s == "" {
      assert s + ['"'] == ['"'] + "";
      TrimDrops('"', "", IsQuote);
      TrimStops("", IsQuote);
    } else {
      assert (s + ['"'])[0] == s[0];
      TrimStops(s + ['"'], IsQuote);
      TrimDrops('"', s, IsQuote);
      TrimStops(s, IsQuote);
    }
  }

  lemma ReadLabel(entry: Entry<string, string>)
    requires IsKey(entry.key) && '"' !in entry.value
    ensures LabelKey(RenderLabel(entry)) == entry.key && LabelValue(RenderLabel(entry)) == entry.value
  {
    hide Trim;
    var part, quoted := RenderLabel(entry), "\"" + entry.value + "\"";
    assert part == entry.key + "=" + quoted;
    assert IndexOf(part, '=') == |entry.key| by {
      assert part[|entry.key|] == '=' && forall i :: 0 <= i < |entry.key| ==> part[i] == entry.key[i];
    }
    assert part[..|entry.key|] == entry.key && part[|entry.key| + 1..] == quoted;
    StripNothing(quoted);
    TrimQuotes(entry.value);
  }

  lemma NameNotEmpty(s: string)
    requires IsName(s)
    ensures s != []
  {}

  lemma FreshLast(labels: Dict<string, string>)
    requires labels != [] && Distinct(labels)
    ensures var front, last := labels[..|labels| - 1], labels[|labels| - 1];
      Distinct(front) && Put(front, last.key, last.value) == labels
  {
    hide Put;
    var front, last := labels[..|labels| - 1], labels[|labels| - 1];
    assert forall i :: 0 <= i < |front| ==> Keys(front)[i] == labels[i].key;
    PutFresh(front, last.key, last.value);
    assert labels == front + [last];
  }

  lemma {:induction false} PutRenderedParts(labels: Dict<string, string>)
    requires ReadableLabels(labels) && Distinct(labels)
    ensures PutLabels(RenderedParts(labels)) == labels
  {
    if labels != [] {
      hide IsKey;
      hide LabelKey;
      hide LabelValue;
      hide RenderLabel;
      hide RenderedParts;
      hide Put;
      hide Distinct;
      var front, last := labels[..|labels| - 1], labels[|labels| - 1];
      FreshLast(labels);
      PutRenderedParts(front);
      assert RenderedParts(labels)[..|front|] == RenderedParts(front);
      ReadLabel(last);
    }
  }

  /** Reading a rendered label list gives back the labels, in order; the values may contain anything but
      quotes: commas, equals signs, braces and white space are kept. */
  lemma LabelRoundTrip(labels: Dict<string, string>)
    requires Distinct(labels) && ReadableLabels(labels)
    ensures LabelsOf(RenderLabels(labels)) == labels
  {
    if labels != [] {
      hide SplitLabels;
      hide PutLabels;
      hide RenderedParts;
      SplitRendered(labels);
      PutRenderedParts(labels);
      assert RenderLabels(labels) != "" by {
        RenderNotEmpty(labels);
      }
    }
  }

  lemma RenderNotEmpty(labels: Dict<string, string>)
    requires labels != []
    ensures RenderLabels(labels) != ""
  {}

  // ----- Exactly which labels read back -----

  /** Outside quotes, a quote opens only right after an equals sign. */
  predicate OpensAfterEquals(s: string, inQuotes: bool, afterEquals: bool) {
    if s == [] then true
    else if s[0] == '"' then (inQuotes || afterEquals) && OpensAfterEquals(s[1..], !inQuotes, false)
    else OpensAfterEquals(s[1..], inQuotes, s[0] == '=')
  }

  /** Reading text without quotes changes only what stands before the next character. */
  lemma {:induction false} OpensPasses(a: string, b: string, inQuotes: bool, afterEquals: bool)
    requires '"' !in a
    ensures OpensAfterEquals(a + b, inQuotes, afterEquals)
      <==> OpensAfterEquals(b, inQuotes, if a == [] then afterEquals else a[|a| - 1] == '=')
  {
    if a == [] {
      assert a + b == b;
    } else {
      assert (a + b)[1..] == a[1..] + b;
      OpensPasses(a[1..], b, inQuotes, a[0] == '=');
    }
  }

  lemma OpensQuote(rest: string, inQuotes: bool, afterEquals: bool)
    ensures OpensAfterEquals("\"" + rest, inQuotes, afterEquals)
      <==> (inQuotes || afterEquals) && OpensAfterEquals(rest, !inQuotes, false)
  {
    assert ("\"" + rest)[1..] == rest;
  }

  lemma OpensLabel(entry: Entry<string, string>, rest: string)
    requires '"' !in entry.key && '"' !in entry.value && OpensAfterEquals(rest, false, false)
    ensures OpensAfterEquals(RenderLabel(entry) + rest, false, false)
  {
    hide OpensAfterEquals;
    var before, c := entry.key + "=", "\"" + rest;
    assert RenderLabel(entry) + rest == before + ("\"" + (entry.value + c));
    OpensQuote(rest, true, false);
    OpensQuote(rest, true, true);
    OpensPasses(entry.value, c, true, false);
    OpensQuote(entry.value + c, false, true);
    OpensPasses(before, "\"" + (entry.value + c), false, false);
  }

  /** No quotes in the keys and the values. */
  ghost predicate QuoteFree(labels: Dict<string, string>) {
    forall i :: 0 <= i < |labels| ==> '"' !in labels[i].key && '"' !in labels[i].value
  }

  lemma QuotesClose(entry: Entry<string, string>)
    requires '"' !in entry.key && '"' !in entry.value
    ensures EvenQuotes(RenderLabel(entry))
  {
    hide EvenQuotes;
    var close, tail := "\"", entry.value + "\"";
    NoQuotesEven(entry.key + "=");
    NoQuotesEven(entry.value);
    OneQuoteOdd();
    EvenQuotesConcat(entry.value, close);
    EvenQuotesConcat(close, tail);
    EvenQuotesConcat(entry.key + "=", close + tail);
    assert RenderLabel(entry) == entry.key + "=" + (close + tail);
  }

  lemma OneQuoteOdd()
    ensures !EvenQuotes("\"")
  {
    assert "\""[1..] == "";
  }

  lemma {:induction false} RenderedOpens(labels: Dict<string, string>)
    requires QuoteFree(labels)
    ensures EvenQuotes(RenderLabels(labels)) && OpensAfterEquals(RenderLabels(labels), false, false)
  {
    hide RenderLabel;
    if labels != [] {
      var first, rest := RenderLabel(labels[0]), RenderLabels(labels[1..]);
      QuotesClose(labels[0]);
      if |labels| == 1 {
        hide EvenQuotes;
        OpensLabel(labels[0], "");
        assert first + "" == first;
      } else {
        RenderedOpens(labels[1..]);
        hide EvenQuotes;
        hide OpensAfterEquals;
        OpensPasses(",", rest, false, false);
        OpensLabel(labels[0], "," + rest);
        NoQuotesEven(",");
        EvenQuotesConcat(",", rest);
        EvenQuotesConcat(first, "," + rest);
        assert RenderLabels(labels) == first + ("," + rest);
      }
    }
  }

  /** Within a part the first comma, if any, stands after the first equals sign. */
  predicate NoCommaInKey(part: string) {
    ',' !in part[..IndexOf(part, '=')]
  }

  /** Up to the cut, commas stand in quotes, and the quotes after an equals sign. */
  lemma {:induction false} CutAfterEquals(s: string, afterEquals: bool)
    requires OpensAfterEquals(s, false, afterEquals)
    ensures afterEquals || NoCommaInKey(s[..ScanCut(s, false)])
  {
    if !afterEquals && s != [] && s[0] != ',' {
      assert s[0] != '"';
      CutAfterEquals(s[1..], s[0] == '=');
      var n := ScanCut(s, false);
      var part, rest := s[..n], s[1..][..n - 1];
      assert part == [s[0]] + rest;
      assert part[1..] == rest;
      if s[0] == '=' {
        assert IndexOf(part, '=') == 0;
      } else {
        assert part[..IndexOf(part, '=')] == [s[0]] + rest[..IndexOf(rest, '=')];
      }
    }
  }

  lemma {:induction false} RestOpens(s: string, inQuotes: bool, afterEquals: bool)
    requires OpensAfterEquals(s, inQuotes, afterEquals) && ScanCut(s, inQuotes) < |s|
    ensures OpensAfterEquals(s[ScanCut(s, inQuotes) + 1..], false, false)
  {
    if s[0] == ',' && !inQuotes {
      assert s[0 + 1..] == s[1..];
    } else {
      var q := if s[0] == '"' then !inQuotes else inQuotes;
      RestOpens(s[1..], q, s[0] == '=');
      assert s[1..][ScanCut(s[1..], q) + 1..] == s[ScanCut(s, inQuotes) + 1..];
    }
  }

  lemma {:induction false} PartsHaveKeys(s: string)
    requires OpensAfterEquals(s, false, false)
    ensures forall p :: p in ScanLabels(s) ==> NoCommaInKey(p)
    decreases |s|
  {
    hide OpensAfterEquals;
    hide NoCommaInKey;
    var n := ScanCut(s, false);
    CutAfterEquals(s, false);
    if n < |s| {
      RestOpens(s, false, false);
      PartsHaveKeys(s[n + 1..]);
    } else {
      assert s[..n] == s;
    }
  }

  lemma {:induction false} TrimLeftEnds(s: string, drop: char -> bool)
    ensures var t := TrimLeft(s, drop);
      (t == [] || !drop(t[0])) && (forall c :: c in t ==> c in s)
  {
    if s != [] && drop(s[0]) {
      TrimLeftEnds(s[1..], drop);
    }
  }

  lemma {:induction false} TrimRightEnds(s: string, drop: char -> bool)
    ensures var t := TrimRight(s, drop);
      && (t == [] || !drop(t[|t| - 1])) && (forall c :: c in t ==> c in s)
      && (t != [] ==> s != [] && t[0] == s[0])
  {
    if s != [] && drop(s[|s| - 1]) {
      TrimRightEnds(s[..|s| - 1], drop);
    }
  }

  lemma StripStable(s: string)
    ensures Strip(Strip(s)) == Strip(s) && (forall c :: c in Strip(s) ==> c in s)
  {
    hide TrimLeft;
    hide TrimRight;
    TrimLeftEnds(s, IsSpace);
    TrimRightEnds(TrimLeft(s, IsSpace), IsSpace);
    TrimStops(Strip(s), IsSpace);
  }

  /** A key as the reader makes it. */
  lemma ReadKey(part: string)
    requires NoCommaInKey(part)
    ensures ',' !in LabelKey(part) && '=' !in LabelKey(part) && Strip(LabelKey(part)) == LabelKey(part)
  {
    hide Strip;
    StripStable(part[..IndexOf(part, '=')]);
  }

  ghost predicate ReadKeys(labels: Dict<string, string>) {
    Distinct(labels)
    && forall k :: k in Keys(labels) ==> ',' !in k && '=' !in k && Strip(k) == k
  }

  lemma {:induction false} PutReadKeys(parts: seq<string>)
    requires forall p :: p in parts ==> NoCommaInKey(p)
    ensures ReadKeys(PutLabels(parts))
  {
    hide NoCommaInKey;
    hide LabelKey;
    hide LabelValue;
    hide Strip;
    hide Keys;
    hide Put;
    hide Distinct;
    if parts == [] {
      NoKeys();
    } else {
      var front, last := parts[..|parts| - 1], parts[|parts| - 1];
      assert last in parts;
      PutReadKeys(front);
      ReadKey(last);
      DistinctPut(PutLabels(front), LabelKey(last), LabelValue(last));
      KeysPut(PutLabels(front), LabelKey(last), LabelValue(last));
    }
  }

  lemma NoKeys()
    ensures Distinct<string, string>([]) && Keys<string, string>([]) == []
  {}

  /** Labels without quotes read back from their rendered list exactly when no key occurs twice, and every
      key is free of commas, equals signs, and white space around it. */
  lemma LabelsReadBackExactly(labels: Dict<string, string>)
    requires QuoteFree(labels)
    ensures LabelsOf(RenderLabels(labels)) == labels
      <==> Distinct(labels) && forall i :: 0 <= i < |labels| ==> IsKey(labels[i].key)
  {
    hide RenderLabels;
    hide SplitLabels;
    hide ScanLabels;
    hide PutLabels;
    hide EvenQuotes;
    hide OpensAfterEquals;
    hide NoCommaInKey;
    hide Strip;
    hide Distinct;
    var s := RenderLabels(labels);
    RenderedOpens(labels);
    SplitIsScan(s);
    PartsHaveKeys(s);
    PutReadKeys(SplitLabels(s));
    NoKeys();
    if LabelsOf(s) == labels {
      assert ReadKeys(labels);
      assert forall i :: 0 <= i < |labels| ==> Keys(labels)[i] == labels[i].key;
    }
    if Distinct(labels) && forall i :: 0 <= i < |labels| ==> IsKey(labels[i].key) {
      LabelRoundTrip(labels);
    }
  }
}
