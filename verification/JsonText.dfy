/** The JSON text the program writes with `json.dumps` and reads with `json.loads`
    (RFC 8259): ASCII-only output, string escapes of section 7, insertion-ordered objects. */
module JsonText {
  import opened Wrappers
  import opened Text
  import opened Dicts

  /** A number with a fraction or an exponent, and NaN and the infinities, keep their literal text. */
  datatype Json =
    | Null
    | Bool(b: bool)
    | Int(n: int)
    | Float(literal: string)
    | Str(s: string)
    | Arr(items: seq<Json>)
    | Obj(fields: Dict<string, Json>)

  // ----- Digits -----

  predicate IsDigit(c: char) {
    '0' <= c <= '9'
  }

  function DigitChar(n: nat): (c: char)
    requires n < 16
    ensures IsPrintableAscii(c)
  {
    if n < 10 then ('0' as int + n) as char else ('a' as int + n - 10) as char
  }

  function HexValue(c: char): (n: Option<nat>)
    ensures n.Some? ==> n.value < 16
  {
    if '0' <= c <= '9' then Some(c as int - '0' as int)
    else if 'a' <= c <= 'f' then Some(c as int - 'a' as int + 10)
    else if 'A' <= c <= 'F' then Some(c as int - 'A' as int + 10)
    else None
  }

  lemma HexValueOfDigit(n: nat)
    requires n < 16
    ensures HexValue(DigitChar(n)) == Some(n)
  {}

  function NatText(n: nat): (t: string)
    ensures t != [] && forall i :: 0 <= i < |t| ==> IsDigit(t[i])
    ensures t[0] == '0' ==> n == 0 && t == "0"
  {
    if n < 10 then [('0' as int + n) as char]
    else NatText(n / 10) + [('0' as int + n % 10) as char]
  }

  function IntText(n: int): string {
    if n < 0 then "-" + NatText(-n) else NatText(n)
  }

  function NatOf(digits: string): nat
    requires forall i :: 0 <= i < |digits| ==> IsDigit(digits[i])
  {
    if digits == [] then 0
    else
      assert IsDigit(digits[|digits| - 1]);
      NatOf(digits[..|digits| - 1]) * 10 + (digits[|digits| - 1] as int - '0' as int)
  }

  lemma {:induction false} NatOfText(n: nat)
    ensures NatOf(NatText(n)) == n
  {
    if n < 10 {
      assert NatText(n)[..0] == [];
    } else {
      NatOfText(n / 10);
      var t := NatText(n);
      assert t[..|t| - 1] == NatText(n / 10);
    }
  }

  // ----- Strings -----

  function Pow16(k: nat): (n: nat)
    ensures n > 0
  {
    if k == 0 then 1 else 16 * Pow16(k - 1)
  }

  /** The lowest `width` hexadecimal digits of `n`. */
  function Hex(n: nat, width: nat): (t: string)
    ensures |t| == width
    ensures forall i :: 0 <= i < |t| ==> IsPrintableAscii(t[i])
    decreases width, n
  {
    if width == 0 then [] else Hex(n / 16, width - 1) + [DigitChar(n % 16)]
  }

  function HexNat(t: string): (n: Option<nat>)
    ensures n.Some? ==> n.value < Pow16(|t|)
  {
    if t == [] then Some(0)
    else
      match (HexNat(t[..|t| - 1]), HexValue(t[|t| - 1]))
      case (Some(high), Some(low)) => Some(high * 16 + low)
      case _ => None
  }

  lemma {:induction false} HexNatOfHex(n: nat, width: nat)
    requires n < Pow16(width)
    ensures HexNat(Hex(n, width)) == Some(n)
    decreases width
  {
    if width != 0 {
      hide HexValue;
      hide HexNat;
      hide DigitChar;
      hide Hex;
      var high, low := HexStep(n, width);
      HexNatOfHex(high, width - 1);
      HexValueOfDigit(low);
      HexNatSnoc(Hex(high, width - 1), DigitChar(low));
    }
  }

  lemma HexStep(n: nat, width: nat) returns (high: nat, low: nat)
    requires width > 0
    ensures low < 16 && n == high * 16 + low
    ensures Hex(n, width) == Hex(high, width - 1) + [DigitChar(low)]
  {
    hide DigitChar;
    high, low := n / 16, n % 16;
  }

  lemma HexNatSnoc(t: string, c: char)
    requires HexNat(t).Some? && HexValue(c).Some?
    ensures HexNat(t + [c]) == Some(HexNat(t).value * 16 + HexValue(c).value)
  {
    hide HexValue;
    assert (t + [c])[..|t|] == t;
  }

  function UnicodeEscape(n: nat): string
    requires n < 0x10000
  {
    "\\u" + Hex(n, 4)
  }

  /** Everything outside the printable ASCII range is escaped; a character beyond the basic
      plane becomes a surrogate pair. */
  function EscapeChar(c: char): string {
    if c == '"' then "\\\""
    else if c == '\\' then "\\\\"
    else if c == '\n' then "\\n"
    else if c == '\r' then "\\r"
    else if c == '\t' then "\\t"
    else if c as int == 0x0C then "\\f"
    else if c as int == 0x08 then "\\b"
    else if ' ' <= c <= '~' then [c]
    else if c as int < 0x10000 then UnicodeEscape(c as int)
    else
      var v := c as int - 0x10000;
      UnicodeEscape(0xD800 + v / 1024) + UnicodeEscape(0xDC00 + v % 1024)
  }

  function Escape(s: string): string {
    if s == [] then [] else EscapeChar(s[0]) + Escape(s[1..])
  }

  /** Four hexadecimal digits at the start of `s`. */
  function ScanHex4(s: string): (n: Option<nat>)
    ensures n.Some? ==> |s| >= 4 && n.value < 0x10000
  {
    if |s| < 4 then None else HexNat(s[..4])
  }

  /** One character of a JSON string and the text after it. */
  function ScanChar(s: string): (r: Option<(char, string)>)
    ensures r.Some? ==> |r.value.1| < |s|
  {
    if s == [] || s[0] == '"' || s[0] < ' ' then None
    else if s[0] != '\\' then Some((s[0], s[1..]))
    else if |s| < 2 then None
    else if s[1] == 'u' then ScanUnicode(s[2..])
    else if s[1] == '"' then Some(('"', s[2..]))
    else if s[1] == '\\' then Some(('\\', s[2..]))
    else if s[1] == '/' then Some(('/', s[2..]))
    else if s[1] == 'b' then Some((0x08 as char, s[2..]))
    else if s[1] == 'f' then Some((0x0C as char, s[2..]))
    else if s[1] == 'n' then Some(('\n', s[2..]))
    else if s[1] == 'r' then Some(('\r', s[2..]))
    else if s[1] == 't' then Some(('\t', s[2..]))
    else None
  }

  /** The text after a backslash and a `u`. A surrogate without its partner is no character. */
  function ScanUnicode(s: string): (r: Option<(char, string)>)
    ensures r.Some? ==> |r.value.1| < |s|
  {
    match ScanHex4(s)
    case None => None
    case Some(n) =>
      if n < 0xD800 || 0xDFFF < n then Some((n as char, s[4..]))
      else if n <= 0xDBFF && |s| >= 6 && s[4] == '\\' && s[5] == 'u' then
        match ScanHex4(s[6..])
        case None => None
        case Some(m) =>
          if 0xDC00 <= m <= 0xDFFF
          then Some(((0x10000 + (n - 0xD800) * 1024 + (m - 0xDC00)) as char, s[10..]))
          else None
      else None
  }

  /** The text after an opening quote: the characters up to the closing quote, and what follows it. */
  function ScanString(s: string): (r: Option<(string, string)>)
    ensures r.Some? ==> |r.value.1| < |s|
    decreases |s|
  {
    if s != [] && s[0] == '"' then Some(("", s[1..]))
    else
      match ScanChar(s)
      case None => None
      case Some((c, rest)) =>
        match ScanString(rest)
        case None => None
        case Some((t, rest')) => Some(([c] + t, rest'))
  }

  lemma ScanEscape(digits: string, n: nat, rest: string)
    requires |digits| == 4 && HexNat(digits) == Some(n) && (n < 0xD800 || 0xDFFF < n)
    ensures ScanChar("\\u" + digits + rest) == Some((n as char, rest))
  {
    var s := digits + rest;
    assert "\\u" + digits + rest == "\\u" + s;
    assert ("\\u" + s)[2..] == s;
    assert s[..4] == digits && s[4..] == rest;
  }

  lemma ScanPair(high: string, hi: nat, low: string, lo: nat, rest: string)
    requires |high| == 4 && HexNat(high) == Some(hi) && 0xD800 <= hi <= 0xDBFF
    requires |low| == 4 && HexNat(low) == Some(lo) && 0xDC00 <= lo <= 0xDFFF
    ensures ScanChar("\\u" + high + ("\\u" + low) + rest)
         == Some(((0x10000 + (hi - 0xD800) * 1024 + (lo - 0xDC00)) as char, rest))
  {
    var s := high + "\\u" + low + rest;
    assert "\\u" + high + ("\\u" + low) + rest == "\\u" + s;
    assert ("\\u" + s)[2..] == s;
    assert s[..4] == high && s[4] == '\\' && s[5] == 'u';
    assert s[6..] == low + rest;
    assert s[6..][..4] == low;
    assert s[10..] == rest;
  }

  lemma ScanShortEscape(c: char, rest: string)
    requires c in {'"', '\\', '\n', '\r', '\t', 0x0C as char, 0x08 as char} || ' ' <= c <= '~'
    ensures ScanChar(EscapeChar(c) + rest) == Some((c, rest))
  {
    var s := EscapeChar(c) + rest;
    if |EscapeChar(c)| == 2 {
      assert s[2..] == rest;
    } else {
      assert s[1..] == rest;
    }
  }

  lemma ScanUnicodeEscape(c: char, rest: string)
    requires (c < ' ' || '~' < c) && c !in {'\n', '\r', '\t', 0x0C as char, 0x08 as char} && c as int < 0x10000
    ensures ScanChar(EscapeChar(c) + rest) == Some((c, rest))
  {
    HexNatOfHex(c as int, 4);
    ScanEscape(Hex(c as int, 4), c as int, rest);
  }

  lemma ScanSurrogates(c: char, rest: string)
    requires c as int >= 0x10000
    ensures ScanChar(EscapeChar(c) + rest) == Some((c, rest))
  {
    hide ScanChar;
    hide Hex;
    hide HexNat;
    var v := c as int - 0x10000;
    var hi, lo := 0xD800 + v / 1024, 0xDC00 + v % 1024;
    HexNatOfHex(hi, 4);
    HexNatOfHex(lo, 4);
    ScanPair(Hex(hi, 4), hi, Hex(lo, 4), lo, rest);
  }

  /** Unescaping undoes escaping, for every character. */
  lemma ScanEscapedChar(c: char, rest: string)
    ensures ScanChar(EscapeChar(c) + rest) == Some((c, rest))
  {
    hide ScanChar;
    hide EscapeChar;
    if c in {'"', '\\', '\n', '\r', '\t', 0x0C as char, 0x08 as char} || ' ' <= c <= '~' {
      ScanShortEscape(c, rest);
    } else if c as int < 0x10000 {
      ScanUnicodeEscape(c, rest);
    } else {
      ScanSurrogates(c, rest);
    }
  }

  lemma EscapeCharStarts(c: char)
    ensures EscapeChar(c) != [] && EscapeChar(c)[0] != '"'
  {}

  lemma {:induction false} ScanEscaped(s: string, rest: string)
    ensures ScanString(Escape(s) + "\"" + rest) == Some((s, rest))
  {
    if s == [] {
      assert Escape(s) + "\"" + rest == "\"" + rest;
      assert ("\"" + rest)[1..] == rest;
    } else {
      hide ScanChar;
      hide ScanString;
      hide EscapeChar;
      var tail := Escape(s[1..]) + "\"" + rest;
      assert Escape(s) + "\"" + rest == EscapeChar(s[0]) + tail;
      EscapeCharStarts(s[0]);
      ScanEscapedChar(s[0], tail);
      ScanEscaped(s[1..], rest);
      ScanOneMore(EscapeChar(s[0]) + tail, s[0], tail, s[1..], rest);
      assert s == [s[0]] + s[1..];
    }
  }

  lemma ScanOneMore(s: string, c: char, tail: string, t: string, rest: string)
    requires s != [] && s[0] != '"' && ScanChar(s) == Some((c, tail)) && ScanString(tail) == Some((t, rest))
    ensures ScanString(s) == Some(([c] + t, rest))
  {
    hide ScanChar;
  }

  // ----- Writing values -----

  function Dumps(v: Json): string
    decreases v, 0
  {
    match v
    case Null => "null"
    case Bool(b) => if b then "true" else "false"
    case Int(n) => IntText(n)
    case Float(literal) => literal
    case Str(s) => "\"" + Escape(s) + "\""
    case Arr(items) => "[" + DumpItems(items) + "]"
    case Obj(fields) => "{" + DumpMembers(fields) + "}"
  }

  function DumpItems(items: seq<Json>): string
    decreases items, 1
  {
    if items == [] then ""
    else if |items| == 1 then Dumps(items[0])
    else Dumps(items[0]) + ", " + DumpItems(items[1..])
  }

  function DumpMember(field: Entry<string, Json>): string
    decreases field, 1
  {
    "\"" + Escape(field.key) + "\": " + Dumps(field.value)
  }

  function DumpMembers(fields: Dict<string, Json>): string
    decreases fields, 1
  {
    if fields == [] then ""
    else if |fields| == 1 then DumpMember(fields[0])
    else DumpMember(fields[0]) + ", " + DumpMembers(fields[1..])
  }

  // ----- Reading values -----

  predicate IsJsonSpace(c: char) {
    c == ' ' || c == '\t' || c == '\n' || c == '\r'
  }

  /** White space of section 2 of RFC 8259: spaces, tabs, line feeds and carriage returns. */
  lemma JsonSpacesExactly(c: char)
    ensures IsJsonSpace(c) <==> c as int in {0x20, 0x09, 0x0A, 0x0D}
  {}

  function SkipSpace(s: string): (r: string)
    ensures |r| <= |s|
  {
    if s != [] && IsJsonSpace(s[0]) then SkipSpace(s[1..]) else s
  }

  /** Length of the leading run of digits. */
  function DigitRun(s: string): (n: nat)
    ensures n <= |s|
    ensures forall i :: 0 <= i < n ==> IsDigit(s[i])
    ensures n < |s| ==> !IsDigit(s[n])
  {
    if s != [] && IsDigit(s[0]) then 1 + DigitRun(s[1..]) else 0
  }

  /** Length of the integer part at the start of `s`: no leading zeros. */
  function IntegerRun(s: string): (n: nat)
    ensures n <= |s|
    ensures forall i :: 0 <= i < n ==> IsDigit(s[i])
  {
    if s != [] && s[0] == '0' then 1 else DigitRun(s)
  }

  function FractionRun(s: string): (n: nat)
    ensures n <= |s|
  {
    if |s| >= 2 && s[0] == '.' && IsDigit(s[1]) then 1 + DigitRun(s[1..]) else 0
  }

  function ExponentRun(s: string): (n: nat)
    ensures n <= |s|
  {
    if |s| >= 2 && (s[0] == 'e' || s[0] == 'E') then
      var sign := if s[1] == '+' || s[1] == '-' then 2 else 1;
      var n := DigitRun(s[sign..]);
      if n == 0 then 0 else sign + n
    else 0
  }

  function ScanNumber(s: string): (r: Option<(Json, string)>)
    ensures r.Some? ==> |r.value.1| < |s|
  {
    var sign := if s != [] && s[0] == '-' then 1 else 0;
    var whole := IntegerRun(s[sign..]);
    if whole == 0 then None
    else
      var end := sign + whole;
      var fraction := FractionRun(s[end..]);
      var exponent := ExponentRun(s[end..][fraction..]);
      if fraction + exponent == 0 then
        var n: int := NatOf(s[sign..][..whole]);
        Some((Int(if sign == 1 then -n else n), s[end..]))
      else
        Some((Float(s[..end + fraction + exponent]), s[end + fraction + exponent..]))
  }

  predicate StartsWith(s: string, prefix: string) {
    |prefix| <= |s| && s[..|prefix|] == prefix
  }

  function Literal(s: string, word: string, v: Json): (r: Option<(Json, string)>)
    requires word != []
    ensures r.Some? ==> |r.value.1| < |s|
  {
    if StartsWith(s, word) then Some((v, s[|word|..])) else None
  }

  /** The value at the start of `s`, and the text after it. */
  function ParseValue(s: string): (r: Option<(Json, string)>)
    ensures r.Some? ==> |r.value.1| < |s|
    decreases |s|, 0
  {
    if s == [] then None
    else if s[0] == '"' then
      match ScanString(s[1..])
      case None => None
      case Some((t, rest)) => Some((Str(t), rest))
    else if s[0] == '[' then
      var body := SkipSpace(s[1..]);
      if body != [] && body[0] == ']' then Some((Arr([]), body[1..])) else ParseItems(body, [])
    else if s[0] == '{' then
      var body := SkipSpace(s[1..]);
      if body != [] && body[0] == '}' then Some((Obj([]), body[1..])) else ParseMembers(body, [])
    else if s[0] == 'n' then Literal(s, "null", Null)
    else if s[0] == 't' then Literal(s, "true", Bool(true))
    else if s[0] == 'f' then Literal(s, "false", Bool(false))
    else if s[0] == 'N' then Literal(s, "NaN", Float("NaN"))
    else if s[0] == 'I' then Literal(s, "Infinity", Float("Infinity"))
    else if StartsWith(s, "-Infinity") then Literal(s, "-Infinity", Float("-Infinity"))
    else ScanNumber(s)
  }

  /** The items of an array, the next of which starts `s`, after those already read. */
  function ParseItems(s: string, read: seq<Json>): (r: Option<(Json, string)>)
    ensures r.Some? ==> |r.value.1| < |s|
    decreases |s|, 1
  {
    match ParseValue(s)
    case None => None
    case Some((v, after)) =>
      var rest := SkipSpace(after);
      if rest == [] then None
      else if rest[0] == ']' then Some((Arr(read + [v]), rest[1..]))
      else if rest[0] == ',' then ParseItems(SkipSpace(rest[1..]), read + [v])
      else None
  }

  /** The members of an object, the next of which starts `s`; a repeated name keeps its first
      place and its last value. */
  function ParseMembers(s: string, read: Dict<string, Json>): (r: Option<(Json, string)>)
    ensures r.Some? ==> |r.value.1| < |s|
    decreases |s|, 1
  {
    if s == [] || s[0] != '"' then None
    else
      match ScanString(s[1..])
      case None => None
      case Some((key, afterKey)) =>
        var colon := SkipSpace(afterKey);
        if colon == [] || colon[0] != ':' then None
        else
          match ParseValue(SkipSpace(colon[1..]))
          case None => None
          case Some((v, after)) =>
            var rest := SkipSpace(after);
            if rest == [] then None
            else if rest[0] == '}' then Some((Obj(Put(read, key, v)), rest[1..]))
            else if rest[0] == ',' then ParseMembers(SkipSpace(rest[1..]), Put(read, key, v))
            else None
  }

  /** `json.loads`: the whole text is one value; None stands for JSONDecodeError. */
  function Loads(s: string): Option<Json> {
    match ParseValue(SkipSpace(s))
    case None => None
    case Some((v, rest)) => if SkipSpace(rest) == [] then Some(v) else None
  }

  // ----- Reading back what was written -----

  ghost predicate Digits(s: string) {
    forall i :: 0 <= i < |s| ==> IsDigit(s[i])
  }

  /** The parts of a number in section 6 of RFC 8259. */
  ghost predicate IsWhole(whole: string) {
    whole != "" && Digits(whole) && (whole[0] == '0' ==> |whole| == 1)
  }

  ghost predicate IsFraction(fraction: string) {
    fraction == "" || (|fraction| >= 2 && fraction[0] == '.' && Digits(fraction[1..]))
  }

  ghost predicate IsExponentParts(mark: string, sign: string, digits: string) {
    (mark == "" && sign == "" && digits == "")
    || ((mark == "e" || mark == "E") && (sign == "" || sign == "+" || sign == "-") && digits != "" && Digits(digits))
  }

  /** A number with a fraction or an exponent, in its parts. */
  ghost predicate SpellsFloat(literal: string, minus: string, whole: string, fraction: string, mark: string,
                              sign: string, digits: string)
  {
    && (minus == "" || minus == "-") && IsWhole(whole) && IsFraction(fraction) && IsExponentParts(mark, sign, digits)
    && fraction + mark != "" && literal == minus + (whole + (fraction + (mark + (sign + digits))))
  }

  ghost predicate IsFloatText(literal: string) {
    || literal == "NaN" || literal == "Infinity" || literal == "-Infinity"
    || exists minus, whole, fraction, mark, sign, digits ::
         SpellsFloat(literal, minus, whole, fraction, mark, sign, digits)
  }

  /** Values the program can write: the literal of a number beyond the integers is one, and dictionary
      keys are distinct. */
  ghost predicate Plain(v: Json)
    decreases v
  {
    match v
    case Float(literal) => IsFloatText(literal)
    case Arr(items) => forall i :: 0 <= i < |items| ==> Plain(items[i])
    case Obj(fields) => Distinct(fields) && forall i :: 0 <= i < |fields| ==> Plain(fields[i].value)
    case _ => true
  }

  /** Text that cannot continue a number. */
  predicate EndsNumber(rest: string) {
    rest == [] || (!IsDigit(rest[0]) && rest[0] != '.' && rest[0] != 'e' && rest[0] != 'E')
  }

  /** A run of digits and text that does not continue it. */
  lemma {:induction false} DigitRunStops(digits: string, rest: string)
    requires Digits(digits) && (rest == [] || !IsDigit(rest[0]))
    ensures DigitRun(digits + rest) == |digits|
  {
    if digits == [] {
      assert digits + rest == rest;
    } else {
      assert (digits + rest)[1..] == digits[1..] + rest;
      DigitRunStops(digits[1..], rest);
    }
  }

  lemma IntegerRunStops(whole: string, rest: string)
    requires IsWhole(whole) && (rest == [] || !IsDigit(rest[0]))
    ensures IntegerRun(whole + rest) == |whole|
  {
    assert (whole + rest)[0] == whole[0];
    DigitRunStops(whole, rest);
  }

  lemma FractionRunStops(fraction: string, rest: string)
    requires IsFraction(fraction) && (rest == [] || (!IsDigit(rest[0]) && rest[0] != '.'))
    ensures FractionRun(fraction + rest) == |fraction|
  {
    var s := fraction + rest;
    if fraction == "" {
      assert s == rest;
    } else {
      assert s[0] == '.' && s[1] == fraction[1] && s[1..] == fraction[1..] + rest;
      DigitRunStops(fraction[1..], rest);
    }
  }

  lemma ExponentRunStops(mark: string, sign: string, digits: string, rest: string)
    requires IsExponentParts(mark, sign, digits) && EndsNumber(rest)
    ensures ExponentRun(mark + (sign + digits) + rest) == |mark + (sign + digits)|
  {
    if mark == "" {
      assert mark + (sign + digits) + rest == rest;
    } else {
      DigitRunStops(digits, rest);
      assert mark + (sign + digits) + rest == mark + (sign + (digits + rest));
      MarkedRun(mark, sign, digits + rest, |digits|);
    }
  }

  lemma MarkedRun(mark: string, sign: string, t: string, n: nat)
    requires (mark == "e" || mark == "E") && (sign == "" || sign == "+" || sign == "-")
    requires 0 < n == DigitRun(t)
    ensures ExponentRun(mark + (sign + t)) == 1 + |sign| + n
  {
    hide DigitRun;
    hide ExponentRun;
    var s := mark + (sign + t);
    assert IsDigit(t[0]);
    CutAt(mark, sign + t);
    CutAt(sign, t);
    assert s[0] == mark[0] && s[1] == (sign + t)[0];
    assert s[1..][|sign|..] == s[1 + |sign|..];
    if sign == "" {
      assert sign + t == t;
    }
    RunAfterMark(s, |sign|, n);
  }

  lemma RunAfterMark(s: string, sign: nat, n: nat)
    requires |s| >= 2 && (s[0] == 'e' || s[0] == 'E') && sign == (if s[1] == '+' || s[1] == '-' then 1 else 0)
    requires 1 + sign <= |s| && 0 < n == DigitRun(s[1 + sign..])
    ensures ExponentRun(s) == 1 + sign + n
  {
    hide DigitRun;
  }

  /** What `ScanNumber` makes of a sign and the runs after it. */
  lemma ScanRuns(s: string, sign: nat, whole: nat, fraction: nat, exponent: nat)
    requires sign == (if s != [] && s[0] == '-' then 1 else 0) && sign <= |s|
    requires 0 < whole == IntegerRun(s[sign..]) && sign + whole + fraction + exponent <= |s|
    requires fraction == FractionRun(s[sign + whole..])
    requires exponent == ExponentRun(s[sign + whole + fraction..])
    ensures ScanNumber(s) ==
      if fraction + exponent == 0 then
        var n: int := NatOf(s[sign..][..whole]);
        Some((Int(if sign == 1 then -n else n), s[sign + whole..]))
      else Some((Float(s[..sign + whole + fraction + exponent]), s[sign + whole + fraction + exponent..]))
  {
    hide IntegerRun;
    hide FractionRun;
    hide ExponentRun;
    hide NatOf;
    assert s[sign + whole..][fraction..] == s[sign + whole + fraction..];
  }

  /** A text in two parts, cut where they meet. */
  lemma CutAt(a: string, b: string)
    ensures (a + b)[..|a|] == a && (a + b)[|a|..] == b
  {}

  /** Where the parts of a number lie in its text. */
  lemma Slices(minus: string, whole: string, fraction: string, exponent: string, rest: string)
    ensures var literal := minus + (whole + (fraction + exponent));
      var s := literal + rest;
      && s[|minus|..] == whole + (fraction + (exponent + rest))
      && s[|minus| + |whole|..] == fraction + (exponent + rest)
      && s[|minus| + |whole| + |fraction|..] == exponent + rest
      && s[|literal|..] == rest && s[..|literal|] == literal
  {
    var literal := minus + (whole + (fraction + exponent));
    assert literal + rest == minus + (whole + (fraction + (exponent + rest)));
    assert literal + rest == (minus + whole) + (fraction + (exponent + rest));
    assert literal + rest == (minus + whole + fraction) + (exponent + rest);
    CutAt(minus, whole + (fraction + (exponent + rest)));
    CutAt(minus + whole, fraction + (exponent + rest));
    CutAt(minus + whole + fraction, exponent + rest);
    CutAt(literal, rest);
  }

  lemma LeadingMinus(minus: string, t: string)
    requires (minus == "" || minus == "-") && t != "" && t[0] != '-'
    ensures minus + t != "" && ((minus + t)[0] == '-' <==> minus == "-")
  {
    assert minus == "" ==> minus + t == t;
  }

  lemma ScanSlices(s: string, minus: string, whole: string, fraction: string, exponent: string, rest: string)
    requires Digits(whole) && whole != "" && s != "" && |minus| == (if s[0] == '-' then 1 else 0)
    requires |s| == |minus| + |whole| + |fraction| + |exponent| + |rest|
    requires s[|minus|..][..|whole|] == whole
    requires IntegerRun(s[|minus|..]) == |whole|
    requires FractionRun(s[|minus| + |whole|..]) == |fraction|
    requires ExponentRun(s[|minus| + |whole| + |fraction|..]) == |exponent|
    requires s[|s| - |rest|..] == rest
    ensures ScanNumber(s) ==
      if fraction + exponent == "" then
        var n: int := NatOf(whole);
        Some((Int(if |minus| == 1 then -n else n), rest))
      else Some((Float(s[..|s| - |rest|]), rest))
  {
    hide ScanNumber;
    hide IntegerRun;
    hide FractionRun;
    hide ExponentRun;
    hide NatOf;
    ScanRuns(s, |minus|, |whole|, |fraction|, |exponent|);
  }

  /** Scanning a number whose parts are the runs that the scanner finds. */
  lemma ScanRead(minus: string, whole: string, fraction: string, exponent: string, rest: string)
    requires (minus == "" || minus == "-") && Digits(whole) && whole != ""
    requires IntegerRun(whole + (fraction + (exponent + rest))) == |whole|
    requires FractionRun(fraction + (exponent + rest)) == |fraction|
    requires ExponentRun(exponent + rest) == |exponent|
    ensures var literal := minus + (whole + (fraction + exponent));
      ScanNumber(literal + rest) ==
        if fraction + exponent == "" then
          var n: int := NatOf(whole);
          Some((Int(if minus == "-" then -n else n), rest))
        else Some((Float(literal), rest))
  {
    hide ScanNumber;
    hide IntegerRun;
    hide FractionRun;
    hide ExponentRun;
    hide NatOf;
    assert IsDigit(whole[0]);
    var literal := minus + (whole + (fraction + exponent));
    Slices(minus, whole, fraction, exponent, rest);
    LeadingMinus(minus, whole + (fraction + (exponent + rest)));
    CutAt(whole, fraction + (exponent + rest));
    ScanSlices(literal + rest, minus, whole, fraction, exponent, rest);
  }

  /** Scanning a number in its parts, whatever follows it. */
  lemma ScanParts(minus: string, whole: string, fraction: string, mark: string, sign: string, digits: string,
                  rest: string)
    requires (minus == "" || minus == "-") && IsWhole(whole) && IsFraction(fraction)
    requires IsExponentParts(mark, sign, digits) && EndsNumber(rest)
    ensures var literal := minus + (whole + (fraction + (mark + (sign + digits))));
      ScanNumber(literal + rest) ==
        if fraction + mark == "" then
          var n: int := NatOf(whole);
          Some((Int(if minus == "-" then -n else n), rest))
        else Some((Float(literal), rest))
  {
    hide ScanNumber;
    hide IntegerRun;
    hide FractionRun;
    hide ExponentRun;
    hide NatOf;
    var exponent := mark + (sign + digits);
    var afterFraction := exponent + rest;
    assert exponent != "" ==> exponent[0] == mark[0] && afterFraction[0] == mark[0];
    var afterWhole := fraction + afterFraction;
    assert fraction != "" ==> afterWhole[0] == '.';
    assert IsDigit(whole[0]);
    IntegerRunStops(whole, afterWhole);
    FractionRunStops(fraction, afterFraction);
    ExponentRunStops(mark, sign, digits, rest);
    hide IsWhole;
    hide IsFraction;
    hide IsExponentParts;
    ScanRead(minus, whole, fraction, exponent, rest);
  }

  lemma ScanIntText(n: int, rest: string)
    requires EndsNumber(rest)
    ensures ScanNumber(IntText(n) + rest) == Some((Int(n), rest))
  {
    hide ScanNumber;
    hide NatText;
    hide NatOf;
    var m := if n < 0 then -n else n;
    var minus := if n < 0 then "-" else "";
    NatOfText(m);
    ScanParts(minus, NatText(m), "", "", "", "", rest);
    assert minus + (NatText(m) + ("" + ("" + ("" + "")))) == IntText(n);
  }

  lemma FloatStarts(literal: string, minus: string, whole: string, fraction: string, mark: string, sign: string,
                    digits: string)
    requires SpellsFloat(literal, minus, whole, fraction, mark, sign, digits)
    ensures literal != "" && (IsDigit(literal[0]) || (literal[0] == '-' && |literal| > 1 && IsDigit(literal[1])))
  {
    assert IsDigit(whole[0]);
    assert literal[0] == if minus == "" then whole[0] else '-';
  }

  lemma ParseFloatText(literal: string, rest: string)
    requires IsFloatText(literal) && EndsNumber(rest)
    ensures ParseValue(literal + rest) == Some((Float(literal), rest))
  {
    if literal == "NaN" || literal == "Infinity" || literal == "-Infinity" {
      ParseConstant(literal, rest);
    } else {
      hide SpellsFloat;
      var minus, whole, fraction, mark, sign, digits :|
        SpellsFloat(literal, minus, whole, fraction, mark, sign, digits);
      FloatStarts(literal, minus, whole, fraction, mark, sign, digits);
      ScanFloatText(literal, minus, whole, fraction, mark, sign, digits, rest);
      ParseScanned(literal, rest);
    }
  }

  lemma ScanFloatText(literal: string, minus: string, whole: string, fraction: string, mark: string, sign: string,
                      digits: string, rest: string)
    requires SpellsFloat(literal, minus, whole, fraction, mark, sign, digits) && EndsNumber(rest)
    ensures ScanNumber(literal + rest) == Some((Float(literal), rest))
  {
    hide ScanNumber;
    hide IsWhole;
    hide IsFraction;
    hide IsExponentParts;
    ScanParts(minus, whole, fraction, mark, sign, digits, rest);
  }

  lemma ParseConstant(word: string, rest: string)
    requires word == "NaN" || word == "Infinity" || word == "-Infinity"
    ensures ParseValue(word + rest) == Some((Float(word), rest))
  {
    var s := word + rest;
    CutAt(word, rest);
    assert s[0] == word[0];
  }

  /** A text that starts like a number is read as one. */
  lemma ParseScanned(t: string, rest: string)
    requires t != "" && (IsDigit(t[0]) || (t[0] == '-' && |t| > 1 && IsDigit(t[1])))
    ensures ParseValue(t + rest) == ScanNumber(t + rest)
  {
    hide ScanNumber;
    var s := t + rest;
    assert s[0] == t[0] && (t[0] == '-' ==> s[1] == t[1]);
    NoInfinity(s);
  }

  lemma IntTextStarts(n: int)
    ensures var t := IntText(n);
      t != [] && (IsDigit(t[0]) || (t[0] == '-' && |t| > 1 && IsDigit(t[1])))
  {}

  lemma NoInfinity(s: string)
    requires s != [] && s[0] == '-' ==> |s| > 1 && IsDigit(s[1])
    ensures !StartsWith(s, "-Infinity")
  {}

  lemma ParseIntText(n: int, rest: string)
    requires EndsNumber(rest)
    ensures ParseValue(IntText(n) + rest) == Some((Int(n), rest))
  {
    IntTextStarts(n);
    ScanIntText(n, rest);
    ParseScanned(IntText(n), rest);
  }

  lemma ParseStrText(t: string, rest: string)
    ensures ParseValue("\"" + Escape(t) + "\"" + rest) == Some((Str(t), rest))
  {
    hide ScanString;
    hide Escape;
    hide ScanNumber;
    var body := Escape(t) + "\"" + rest;
    ScanEscaped(t, rest);
    assert "\"" + Escape(t) + "\"" + rest == "\"" + body;
    assert ("\"" + body)[1..] == body;
  }

  lemma ParseWord(word: string, v: Json, rest: string)
    requires (word == "null" && v == Null) || (word == "true" && v == Bool(true))
      || (word == "false" && v == Bool(false))
    ensures ParseValue(word + rest) == Some((v, rest))
  {
    var s := word + rest;
    assert s[0] == word[0];
    assert s[..|word|] == word && s[|word|..] == rest;
  }

  /** Text that starts with neither white space nor the given closing bracket. */
  predicate Opens(s: string) {
    s != [] && !IsJsonSpace(s[0]) && s[0] != ']' && s[0] != '}'
  }

  lemma ParseArray(body: string)
    requires Opens(body)
    ensures ParseValue("[" + body) == ParseItems(body, [])
  {
    assert ("[" + body)[1..] == body;
  }

  lemma ParseObject(body: string)
    requires Opens(body)
    ensures ParseValue("{" + body) == ParseMembers(body, [])
  {
    assert ("{" + body)[1..] == body;
  }

  lemma ParseEmpty(rest: string)
    ensures ParseValue("[" + ("]" + rest)) == Some((Arr([]), rest))
    ensures ParseValue("{" + ("}" + rest)) == Some((Obj([]), rest))
  {
    assert ("[" + ("]" + rest))[1..] == "]" + rest && ("]" + rest)[1..] == rest;
    assert ("{" + ("}" + rest))[1..] == "}" + rest && ("}" + rest)[1..] == rest;
  }

  lemma SkipOneSpace(more: string)
    requires Opens(more)
    ensures SkipSpace(" " + more) == more
  {
    assert (" " + more)[1..] == more;
  }

  lemma LastItem(s: string, v: Json, read: seq<Json>, rest: string)
    requires ParseValue(s) == Some((v, "]" + rest))
    ensures ParseItems(s, read) == Some((Arr(read + [v]), rest))
  {
    assert ("]" + rest)[1..] == rest;
  }

  lemma OneMoreItem(s: string, v: Json, read: seq<Json>, more: string)
    requires ParseValue(s) == Some((v, ", " + more)) && Opens(more)
    ensures ParseItems(s, read) == ParseItems(more, read + [v])
  {
    assert (", " + more)[1..] == " " + more;
    SkipOneSpace(more);
  }

  lemma MemberValue(key: string, value: string, v: Json, after: string, read: Dict<string, Json>)
    requires Opens(value) && ParseValue(value) == Some((v, after))
    requires after != [] && !IsJsonSpace(after[0])
    ensures ParseMembers("\"" + Escape(key) + "\": " + value, read) ==
      if after[0] == '}' then Some((Obj(Put(read, key, v)), after[1..]))
      else if after[0] == ',' then ParseMembers(SkipSpace(after[1..]), Put(read, key, v))
      else None
  {
    hide ScanString;
    hide ParseValue;
    hide Escape;
    hide Put;
    var colon := ": " + value;
    var body := Escape(key) + "\"" + colon;
    ScanEscaped(key, colon);
    assert "\"" + Escape(key) + "\": " + value == "\"" + body;
    assert ("\"" + body)[1..] == body;
    assert colon[1..] == " " + value;
    SkipOneSpace(value);
  }

  lemma DumpsOpens(v: Json)
    requires Plain(v)
    ensures Opens(Dumps(v))
  {
    if v.Int? {
      IntTextStarts(v.n);
    } else if v.Float? {
      FloatOpens(v.literal);
    }
  }

  lemma FloatOpens(literal: string)
    requires IsFloatText(literal)
    ensures Opens(literal)
  {
    hide SpellsFloat;
    if literal != "NaN" && literal != "Infinity" && literal != "-Infinity" {
      var minus, whole, fraction, mark, sign, digits :|
        SpellsFloat(literal, minus, whole, fraction, mark, sign, digits);
      FloatStarts(literal, minus, whole, fraction, mark, sign, digits);
    }
  }

  lemma DumpItemsOpens(items: seq<Json>, more: string)
    requires items != [] && Plain(items[0])
    ensures Opens(DumpItems(items) + more)
  {
    DumpsOpens(items[0]);
    assert DumpItems(items)[0] == Dumps(items[0])[0];
  }

  lemma DumpMembersOpens(fields: Dict<string, Json>, more: string)
    requires fields != []
    ensures Opens(DumpMembers(fields) + more)
  {
    hide Dumps;
    hide Escape;
    var first := DumpMember(fields[0]);
    assert first != "" && first[0] == '"';
    assert DumpMembers(fields) != "" && DumpMembers(fields)[0] == first[0];
  }

  /** Reading undoes writing, for every plain value and whatever follows it. */
  lemma {:induction false} ParseDumps(v: Json, rest: string)
    requires Plain(v) && EndsNumber(rest)
    ensures ParseValue(Dumps(v) + rest) == Some((v, rest))
    decreases v, 0
  {
    hide ParseValue;
    hide ParseItems;
    hide ParseMembers;
    match v
    case Int(n) => ParseIntText(n, rest);
    case Float(literal) => ParseFloatText(literal, rest);
    case Str(t) => ParseStrText(t, rest);
    case Null => ParseWord("null", Null, rest);
    case Bool(b) => ParseWord(if b then "true" else "false", v, rest);
    case Arr(items) => ParseArrText(items, rest);
    case Obj(fields) => ParseObjText(fields, rest);
  }

  lemma ParseArrText(items: seq<Json>, rest: string)
    requires Plain(Arr(items))
    ensures ParseValue(Dumps(Arr(items)) + rest) == Some((Arr(items), rest))
    decreases items, 2
  {
    hide ParseValue;
    hide ParseItems;
    hide ParseMembers;
    var body := DumpItems(items) + ("]" + rest);
    assert Dumps(Arr(items)) + rest == "[" + body;
    if items == [] {
      assert body == "]" + rest;
      ParseEmpty(rest);
    } else {
      hide DumpItems;
      DumpItemsOpens(items, "]" + rest);
      ParseArray(body);
      ParseDumpItems(items, [], rest);
      assert [] + items == items;
    }
  }

  lemma ParseObjText(fields: Dict<string, Json>, rest: string)
    requires Plain(Obj(fields))
    ensures ParseValue(Dumps(Obj(fields)) + rest) == Some((Obj(fields), rest))
    decreases fields, 2
  {
    hide ParseValue;
    hide ParseItems;
    hide ParseMembers;
    var body := DumpMembers(fields) + ("}" + rest);
    assert Dumps(Obj(fields)) + rest == "{" + body;
    if fields == [] {
      assert body == "}" + rest;
      ParseEmpty(rest);
    } else {
      hide DumpMembers;
      DumpMembersOpens(fields, "}" + rest);
      ParseObject(body);
      assert [] + fields == fields;
      ParseDumpMembers(fields, [], rest);
    }
  }

  lemma DumpItemsCons(items: seq<Json>, after: string)
    requires |items| >= 2
    ensures DumpItems(items) + after == Dumps(items[0]) + (", " + (DumpItems(items[1..]) + after))
  {
    hide Dumps;
  }

  lemma {:induction false} ParseDumpItems(items: seq<Json>, read: seq<Json>, rest: string)
    requires items != [] && forall i :: 0 <= i < |items| ==> Plain(items[i])
    ensures ParseItems(DumpItems(items) + ("]" + rest), read) == Some((Arr(read + items), rest))
    decreases items, 1
  {
    hide ParseValue;
    hide ParseItems;
    hide Dumps;
    hide Opens;
    var after := "]" + rest;
    var s := DumpItems(items) + after;
    if |items| == 1 {
      ParseDumps(items[0], after);
      LastItem(s, items[0], read, rest);
      assert items == [items[0]];
    } else {
      hide DumpItems;
      var more := DumpItems(items[1..]) + after;
      DumpItemsCons(items, after);
      ParseDumps(items[0], ", " + more);
      DumpItemsOpens(items[1..], after);
      OneMoreItem(s, items[0], read, more);
      ParseDumpItems(items[1..], read + [items[0]], rest);
      assert read + [items[0]] + items[1..] == read + items;
    }
  }

  lemma {:induction false} ParseDumpMember(field: Entry<string, Json>, read: Dict<string, Json>, after: string)
    requires Plain(field.value) && EndsNumber(after) && after != [] && !IsJsonSpace(after[0])
    ensures ParseMembers(DumpMember(field) + after, read) ==
      if after[0] == '}' then Some((Obj(Put(read, field.key, field.value)), after[1..]))
      else if after[0] == ',' then ParseMembers(SkipSpace(after[1..]), Put(read, field.key, field.value))
      else None
    decreases field, 1
  {
    hide ParseValue;
    hide ParseItems;
    hide ParseMembers;
    var value := Dumps(field.value) + after;
    ParseDumps(field.value, after);
    DumpsOpens(field.value);
    MemberValue(field.key, value, field.value, after, read);
    assert DumpMember(field) + after == "\"" + Escape(field.key) + "\": " + value;
  }

  lemma DumpMembersCons(fields: Dict<string, Json>, after: string)
    requires |fields| >= 2
    ensures DumpMembers(fields) + after == DumpMember(fields[0]) + (", " + (DumpMembers(fields[1..]) + after))
  {
    hide DumpMember;
  }

  lemma LastMember(s: string, field: Entry<string, Json>, read: Dict<string, Json>, rest: string)
    requires s == DumpMember(field) + ("}" + rest) && Plain(field.value)
    ensures ParseMembers(s, read) == Some((Obj(Put(read, field.key, field.value)), rest))
    decreases field, 2
  {
    hide ParseMembers;
    hide DumpMember;
    ParseDumpMember(field, read, "}" + rest);
    assert ("}" + rest)[1..] == rest;
  }

  lemma OneMoreMember(s: string, field: Entry<string, Json>, read: Dict<string, Json>, more: string)
    requires s == DumpMember(field) + (", " + more) && Plain(field.value) && Opens(more)
    ensures ParseMembers(s, read) == ParseMembers(more, Put(read, field.key, field.value))
    decreases field, 2
  {
    hide ParseMembers;
    hide DumpMember;
    ParseDumpMember(field, read, ", " + more);
    assert (", " + more)[1..] == " " + more;
    SkipOneSpace(more);
  }

  lemma {:induction false} ParseDumpMembers(fields: Dict<string, Json>, read: Dict<string, Json>, rest: string)
    requires fields != [] && forall i :: 0 <= i < |fields| ==> Plain(fields[i].value)
    requires Distinct(read + fields)
    ensures ParseMembers(DumpMembers(fields) + ("}" + rest), read) == Some((Obj(read + fields), rest))
    decreases fields, 1
  {
    hide ParseMembers;
    hide DumpMember;
    hide DumpMembers;
    hide Distinct;
    hide Opens;
    hide Plain;
    hide Put;
    var field, after := fields[0], "}" + rest;
    var s := DumpMembers(fields) + after;
    FreshKey(read, fields);
    if |fields| == 1 {
      DumpOneMember(fields);
      LastMember(s, field, read, rest);
      assert fields == [field];
    } else {
      var more := DumpMembers(fields[1..]) + after;
      DumpMembersCons(fields, after);
      DumpMembersOpens(fields[1..], after);
      OneMoreMember(s, field, read, more);
      assert read + [field] + fields[1..] == read + fields;
      ParseDumpMembers(fields[1..], read + [field], rest);
    }
  }

  lemma DumpOneMember(fields: Dict<string, Json>)
    requires |fields| == 1
    ensures DumpMembers(fields) == DumpMember(fields[0])
  {
    hide DumpMember;
  }

  lemma FreshKey(read: Dict<string, Json>, fields: Dict<string, Json>)
    requires fields != [] && Distinct(read + fields)
    ensures Put(read, fields[0].key, fields[0].value) == read + [fields[0]]
  {
    forall i | 0 <= i < |read|
      ensures read[i].key != fields[0].key
    {
      assert (read + fields)[i] == read[i] && (read + fields)[|read|] == fields[0];
    }
    assert forall i :: 0 <= i < |read| ==> Keys(read)[i] == read[i].key;
    PutFresh(read, fields[0].key, fields[0].value);
  }

  ghost predicate JsonBlank(s: string) {
    forall i :: 0 <= i < |s| ==> IsJsonSpace(s[i])
  }

  lemma {:induction false} SkipBlank(blank: string, rest: string)
    requires JsonBlank(blank)
    ensures SkipSpace(blank + rest) == SkipSpace(rest)
  {
    if blank == "" {
      assert blank + rest == rest;
    } else {
      assert (blank + rest)[1..] == blank[1..] + rest;
      SkipBlank(blank[1..], rest);
    }
  }

  /** `json.loads(json.dumps(v)) == v`, with any white space around the text. */
  lemma LoadsDumps(v: Json, before: string, after: string)
    requires Plain(v) && JsonBlank(before) && JsonBlank(after)
    ensures Loads(before + Dumps(v) + after) == Some(v)
  {
    hide Dumps;
    hide ParseValue;
    hide Plain;
    var text := Dumps(v) + after;
    ParseDumps(v, after);
    DumpsOpens(v);
    assert before + Dumps(v) + after == before + text;
    SkipBlank(before, text);
    assert text[0] == Dumps(v)[0];
    SkipBlank(after, "");
    assert after + "" == after;
  }

  // ----- The written text is printable ASCII -----

  lemma EscapeCharPrintable(c: char)
    ensures All(EscapeChar(c), IsPrintableAscii)
  {}

  lemma {:induction false} EscapePrintable(s: string)
    ensures All(Escape(s), IsPrintableAscii)
  {
    if s != [] {
      EscapeCharPrintable(s[0]);
      EscapePrintable(s[1..]);
    }
  }

  lemma FloatPrintable(literal: string)
    requires IsFloatText(literal)
    ensures All(literal, IsPrintableAscii)
  {
    if literal != "NaN" && literal != "Infinity" && literal != "-Infinity" {
      var minus, whole, fraction, mark, sign, digits :|
        SpellsFloat(literal, minus, whole, fraction, mark, sign, digits);
      DigitsPrintable(whole);
      FractionPrintable(fraction);
      DigitsPrintable(digits);
      hide IsPrintableAscii;
      AllConcat(sign, digits);
      AllConcat(mark, sign + digits);
      AllConcat(fraction, mark + (sign + digits));
      AllConcat(whole, fraction + (mark + (sign + digits)));
      AllConcat(minus, whole + (fraction + (mark + (sign + digits))));
    }
  }

  lemma AllConcat(a: string, b: string)
    requires All(a, IsPrintableAscii) && All(b, IsPrintableAscii)
    ensures All(a + b, IsPrintableAscii)
  {}

  lemma DigitsPrintable(s: string)
    requires Digits(s)
    ensures All(s, IsPrintableAscii)
  {}

  lemma FractionPrintable(s: string)
    requires IsFraction(s)
    ensures All(s, IsPrintableAscii)
  {
    if s != "" {
      DigitsPrintable(s[1..]);
      assert forall i :: 0 < i < |s| ==> s[i] == s[1..][i - 1];
    }
  }

  lemma {:induction false} DumpsPrintable(v: Json)
    requires Plain(v)
    ensures All(Dumps(v), IsPrintableAscii)
    decreases v, 0
  {
    match v
    case Str(t) => EscapePrintable(t);
    case Arr(items) => DumpItemsPrintable(items);
    case Obj(fields) => DumpMembersPrintable(fields);
    case Float(literal) => FloatPrintable(literal);
    case _ =>
  }

  lemma {:induction false} DumpItemsPrintable(items: seq<Json>)
    requires forall i :: 0 <= i < |items| ==> Plain(items[i])
    ensures All(DumpItems(items), IsPrintableAscii)
    decreases items, 1
  {
    if items != [] {
      DumpsPrintable(items[0]);
      DumpItemsPrintable(items[1..]);
    }
  }

  lemma {:induction false} DumpMemberPrintable(field: Entry<string, Json>)
    requires Plain(field.value)
    ensures All(DumpMember(field), IsPrintableAscii)
    decreases field, 1
  {
    EscapePrintable(field.key);
    DumpsPrintable(field.value);
  }

  lemma {:induction false} DumpMembersPrintable(fields: Dict<string, Json>)
    requires forall i :: 0 <= i < |fields| ==> Plain(fields[i].value)
    ensures All(DumpMembers(fields), IsPrintableAscii)
    decreases fields, 1
  {
    if fields != [] {
      DumpMemberPrintable(fields[0]);
      DumpMembersPrintable(fields[1..]);
    }
  }
}
