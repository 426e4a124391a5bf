/** JSON texts as RFC 8259 lets anyone write them, with any white space and any of the escapes, and what the
    reader makes of them. */
module JsonDocuments {
  import opened Wrappers
  import opened Text
  import opened Dicts
  import opened JsonText

  /** One character of a string: as it is, by a letter after a backslash, or by its code. */
  datatype Piece =
    | Itself(c: char)
    | Letter(letter: char)
    | Code(digits: string)
    | Pair(high: string, low: string)

  /** A document; `blank` and its like are the white space at each place where it may stand. */
  datatype Document =
    | Word(value: Json)
    | Number(minus: string, whole: string, fraction: string, mark: string, sign: string, digits: string)
    | Quoted(pieces: seq<Piece>)
    | List(blank: string, items: seq<Item>)
    | Members(blank: string, members: seq<Member>)

  datatype Item = Item(document: Document, after: string, next: string)

  datatype Member = Member(
    key: seq<Piece>, beforeColon: string, afterColon: string, document: Document, after: string, next: string)

  // ----- Strings -----

  /** The character that a letter after a backslash stands for. */
  function LetterValue(letter: char): Option<char> {
    if letter == '"' || letter == '\\' || letter == '/' then Some(letter)
    else if letter == 'b' then Some(8 as char)
    else if letter == 'f' then Some(12 as char)
    else if letter == 'n' then Some(10 as char)
    else if letter == 'r' then Some(13 as char)
    else if letter == 't' then Some(9 as char)
    else None
  }

  ghost predicate IsCode(digits: string, low: nat, high: nat) {
    |digits| == 4 && HexNat(digits).Some? && low <= HexNat(digits).value <= high
  }

  ghost predicate GoodPiece(p: Piece) {
    match p
    case Itself(c) => c >= ' ' && c != '"' && c != '\\'
    case Letter(letter) => LetterValue(letter).Some?
    case Code(digits) => IsCode(digits, 0, 0xD7FF) || IsCode(digits, 0xE000, 0xFFFF)
    case Pair(high, low) => IsCode(high, 0xD800, 0xDBFF) && IsCode(low, 0xDC00, 0xDFFF)
  }

  function PieceText(p: Piece): string {
    match p
    case Itself(c) => [c]
    case Letter(letter) => "\\" + [letter]
    case Code(digits) => "\\u" + digits
    case Pair(high, low) => "\\u" + high + ("\\u" + low)
  }

  ghost function PieceChar(p: Piece): char
    requires GoodPiece(p)
  {
    match p
    case Itself(c) => c
    case Letter(letter) => LetterValue(letter).value
    case Code(digits) => HexNat(digits).value as char
    case Pair(high, low) => (0x10000 + (HexNat(high).value - 0xD800) * 1024 + (HexNat(low).value - 0xDC00)) as char
  }

  ghost predicate GoodPieces(pieces: seq<Piece>) {
    forall i :: 0 <= i < |pieces| ==> GoodPiece(pieces[i])
  }

  function PiecesText(pieces: seq<Piece>): string {
    if pieces == [] then "" else PieceText(pieces[0]) + PiecesText(pieces[1..])
  }

  ghost function Characters(pieces: seq<Piece>): string
    requires GoodPieces(pieces)
  {
    if pieces == [] then "" else [PieceChar(pieces[0])] + Characters(pieces[1..])
  }

  lemma ScanLetter(letter: char, rest: string)
    requires LetterValue(letter).Some?
    ensures ScanChar("\\" + [letter] + rest) == Some((LetterValue(letter).value, rest))
  {
    hide ScanUnicode;
    var s := "\\" + [letter] + rest;
    assert s[0] == '\\' && s[1] == letter && s[2..] == rest;
  }

  lemma ScanPiece(p: Piece, rest: string)
    requires GoodPiece(p)
    ensures var s := PieceText(p) + rest;
      s != "" && s[0] != '"' && ScanChar(s) == Some((PieceChar(p), rest))
  {
    hide HexNat;
    match p
    case Itself(c) =>
      assert ([c] + rest)[1..] == rest;
    case Letter(letter) => ScanLetter(letter, rest);
    case Code(digits) => ScanEscape(digits, HexNat(digits).value, rest);
    case Pair(high, low) => ScanPair(high, HexNat(high).value, low, HexNat(low).value, rest);
  }

  /** A string is read as the characters it stands for, however each is written. */
  lemma {:induction false} ScanPieces(pieces: seq<Piece>, rest: string)
    requires GoodPieces(pieces)
    ensures ScanString(PiecesText(pieces) + "\"" + rest) == Some((Characters(pieces), rest))
  {
    hide PieceText;
    hide PieceChar;
    hide ScanChar;
    hide GoodPiece;
    if pieces == [] {
      assert PiecesText(pieces) + "\"" + rest == "\"" + rest;
      assert ("\"" + rest)[1..] == rest;
    } else {
      hide ScanString;
      var tail := PiecesText(pieces[1..]) + "\"" + rest;
      var s := PieceText(pieces[0]) + tail;
      assert PiecesText(pieces) + "\"" + rest == s;
      ScanPiece(pieces[0], tail);
      ScanPieces(pieces[1..], rest);
      ScanOneMore(s, PieceChar(pieces[0]), tail, Characters(pieces[1..]), rest);
    }
  }

  /** The digits of a code, in either case. */
  lemma HexDigits(n: nat)
    requires n < 16
    ensures n < 10 ==> HexValue(('0' as int + n) as char) == Some(n)
    ensures n >= 10 ==> HexValue(('a' as int + n - 10) as char) == Some(n)
    ensures n >= 10 ==> HexValue(('A' as int + n - 10) as char) == Some(n)
  {}

  // ----- How strings are written -----

  ghost predicate Lowercase(digits: string) {
    forall i :: 0 <= i < |digits| ==> '0' <= digits[i] <= '9' || 'a' <= digits[i] <= 'f'
  }

  lemma {:induction false} HexLowercase(n: nat, width: nat)
    ensures Lowercase(Hex(n, width))
    decreases width
  {
    if width > 0 {
      HexLowercase(n / 16, width - 1);
    }
  }

  lemma CodeWritten(n: nat)
    requires n < 0x10000
    ensures |Hex(n, 4)| == 4 && HexNat(Hex(n, 4)) == Some(n) && Lowercase(Hex(n, 4))
  {
    HexNatOfHex(n, 4);
    HexLowercase(n, 4);
  }

  /** How each character is written: printable ASCII as it is, but for quotes and backslashes; those and five
      control characters by a letter; every other one by its code in lower case, or a pair of codes. */
  lemma EscapedExactly(c: char) returns (p: Piece)
    ensures GoodPiece(p) && PieceText(p) == EscapeChar(c) && PieceChar(p) == c
    ensures p.Itself? <==> ' ' <= c <= '~' && c != '"' && c != '\\'
    ensures p.Letter? <==> c in {'"', '\\', '\n', '\r', '\t', 0x0C as char, 0x08 as char}
    ensures (p.Code? ==> Lowercase(p.digits)) && (p.Pair? ==> Lowercase(p.high) && Lowercase(p.low))
  {
    hide Lowercase;
    hide Hex;
    hide HexNat;
    if c in {'"', '\\', '\n', '\r', '\t', 0x0C as char, 0x08 as char} {
      p := Letter(EscapeChar(c)[1]);
    } else if ' ' <= c <= '~' {
      p := Itself(c);
    } else if c as int < 0x10000 {
      CodeWritten(c as int);
      p := Code(Hex(c as int, 4));
    } else {
      var v := c as int - 0x10000;
      CodeWritten(0xD800 + v / 1024);
      CodeWritten(0xDC00 + v % 1024);
      p := Pair(Hex(0xD800 + v / 1024, 4), Hex(0xDC00 + v % 1024, 4));
    }
  }

  // ----- Documents -----

  ghost predicate IsWord(v: Json) {
    || v == Null || v == Bool(true) || v == Bool(false) || v == Float("NaN") || v == Float("Infinity")
    || v == Float("-Infinity")
  }

  ghost predicate Good(d: Document)
    decreases d
  {
    match d
    case Word(v) => IsWord(v)
    case Number(minus, whole, fraction, mark, sign, digits) =>
      (minus == "" || minus == "-") && IsWhole(whole) && IsFraction(fraction) && IsExponentParts(mark, sign, digits)
    case Quoted(pieces) => GoodPieces(pieces)
    case List(blank, items) => JsonBlank(blank) && forall i :: 0 <= i < |items| ==> GoodItem(items[i])
    case Members(blank, members) => JsonBlank(blank) && forall i :: 0 <= i < |members| ==> GoodMember(members[i])
  }

  ghost predicate GoodItem(i: Item)
    decreases i
  {
    Good(i.document) && JsonBlank(i.after) && JsonBlank(i.next)
  }

  ghost predicate GoodMember(m: Member)
    decreases m
  {
    && GoodPieces(m.key) && JsonBlank(m.beforeColon) && JsonBlank(m.afterColon) && Good(m.document)
    && JsonBlank(m.after) && JsonBlank(m.next)
  }

  function TextOf(d: Document): string
    decreases d, 0
  {
    match d
    case Word(v) => Dumps(v)
    case Number(minus, whole, fraction, mark, sign, digits) => minus + (whole + (fraction + (mark + (sign + digits))))
    case Quoted(pieces) => "\"" + PiecesText(pieces) + "\""
    case List(blank, items) => "[" + (blank + (ItemsText(items) + "]"))
    case Members(blank, members) => "{" + (blank + (MembersText(members) + "}"))
  }

  function ItemText(i: Item): string
    decreases i, 1
  {
    TextOf(i.document) + i.after
  }

  function ItemsText(items: seq<Item>): string
    decreases items, 1
  {
    if items == [] then ""
    else if |items| == 1 then ItemText(items[0])
    else ItemText(items[0]) + ("," + (items[0].next + ItemsText(items[1..])))
  }

  function MemberText(m: Member): string
    decreases m, 1
  {
    "\"" + PiecesText(m.key) + "\"" + (m.beforeColon + (":" + (m.afterColon + (TextOf(m.document) + m.after))))
  }

  function MembersText(members: seq<Member>): string
    decreases members, 1
  {
    if members == [] then ""
    else if |members| == 1 then MemberText(members[0])
    else MemberText(members[0]) + ("," + (members[0].next + MembersText(members[1..])))
  }

  /** The value a document denotes; a repeated name keeps its first place and its last value. */
  ghost function ValueOf(d: Document): Json
    requires Good(d)
    decreases d, 0, 0
  {
    match d
    case Word(v) => v
    case Number(minus, whole, fraction, mark, sign, digits) =>
      if fraction + mark == "" then
        var n: int := NatOf(whole);
        Int(if minus == "-" then -n else n)
      else Float(TextOf(d))
    case Quoted(pieces) => Str(Characters(pieces))
    case List(_, items) => Arr(Values(items, |items|))
    case Members(_, members) => Obj(Fields([], members, |members|))
  }

  ghost predicate GoodItems(items: seq<Item>) {
    forall i :: 0 <= i < |items| ==> GoodItem(items[i])
  }

  ghost predicate GoodMembers(members: seq<Member>) {
    forall i :: 0 <= i < |members| ==> GoodMember(members[i])
  }

  ghost function Values(items: seq<Item>, n: nat): seq<Json>
    requires n <= |items| && GoodItems(items)
    decreases items, 1, n
  {
    if n == 0 then [] else Values(items, n - 1) + [ValueOf(items[n - 1].document)]
  }

  /** The entries of a dictionary after the first `n` members. */
  ghost function Fields(read: Dict<string, Json>, members: seq<Member>, n: nat): Dict<string, Json>
    requires n <= |members| && GoodMembers(members)
    decreases members, 1, n
  {
    if n == 0 then read
    else Put(Fields(read, members, n - 1), Characters(members[n - 1].key), ValueOf(members[n - 1].document))
  }

  // ----- Reading documents -----

  lemma SkipTo(blank: string, more: string)
    requires JsonBlank(blank) && more != "" && !IsJsonSpace(more[0])
    ensures SkipSpace(blank + more) == more
  {
    SkipBlank(blank, more);
  }

  lemma SkipOpen(blank: string, more: string)
    requires JsonBlank(blank) && Opens(more)
    ensures SkipSpace(blank + more) == more
  {
    SkipTo(blank, more);
  }

  lemma BlankEndsNumber(blank: string, more: string)
    requires JsonBlank(blank) && more != "" && EndsNumber(more)
    ensures EndsNumber(blank + more)
  {
    if blank == "" {
      assert blank + more == more;
    }
  }

  lemma ParseOpened(blank: string, body: string)
    requires JsonBlank(blank) && Opens(body)
    ensures ParseValue("[" + (blank + body)) == ParseItems(body, [])
    ensures ParseValue("{" + (blank + body)) == ParseMembers(body, [])
  {
    assert ("[" + (blank + body))[1..] == blank + body;
    assert ("{" + (blank + body))[1..] == blank + body;
    SkipTo(blank, body);
  }

  lemma ParseClosed(blank: string, rest: string)
    requires JsonBlank(blank)
    ensures ParseValue("[" + (blank + ("]" + rest))) == Some((Arr([]), rest))
    ensures ParseValue("{" + (blank + ("}" + rest))) == Some((Obj([]), rest))
  {
    assert ("[" + (blank + ("]" + rest)))[1..] == blank + ("]" + rest) && ("]" + rest)[1..] == rest;
    assert ("{" + (blank + ("}" + rest)))[1..] == blank + ("}" + rest) && ("}" + rest)[1..] == rest;
    SkipTo(blank, "]" + rest);
    SkipTo(blank, "}" + rest);
  }

  lemma NumberOpens(d: Document)
    requires d.Number? && Good(d)
    ensures var t := TextOf(d);
      t != "" && (IsDigit(t[0]) || (t[0] == '-' && |t| > 1 && IsDigit(t[1])))
  {
    assert IsDigit(d.whole[0]);
    assert TextOf(d)[0] == if d.minus == "" then d.whole[0] else '-';
  }

  lemma TextOpens(d: Document, more: string)
    requires Good(d)
    ensures Opens(TextOf(d) + more)
  {
    if d.Number? {
      NumberOpens(d);
      hide TextOf;
      hide Good;
    }
  }

  lemma ItemsOpen(items: seq<Item>, more: string)
    requires items != [] && GoodItem(items[0])
    ensures Opens(ItemsText(items) + more)
  {
    hide TextOf;
    hide Good;
    TextOpens(items[0].document, "");
    var t := TextOf(items[0].document);
    assert t + "" == t;
    assert ItemsText(items) != "" && ItemsText(items)[0] == t[0];
  }

  lemma MembersOpen(members: seq<Member>, more: string)
    requires members != []
    ensures Opens(MembersText(members) + more)
  {
    hide TextOf;
    assert MembersText(members) != "" && MembersText(members)[0] == '"';
  }

  lemma ParseQuoted(pieces: seq<Piece>, rest: string)
    requires GoodPieces(pieces)
    ensures ParseValue("\"" + PiecesText(pieces) + "\"" + rest) == Some((Str(Characters(pieces)), rest))
  {
    hide ScanString;
    hide PiecesText;
    hide GoodPieces;
    hide ScanNumber;
    var body := PiecesText(pieces) + "\"" + rest;
    ScanPieces(pieces, rest);
    assert "\"" + PiecesText(pieces) + "\"" + rest == "\"" + body;
    assert ("\"" + body)[1..] == body;
  }

  lemma ParseNumber(d: Document, rest: string)
    requires d.Number? && Good(d) && EndsNumber(rest)
    ensures ParseValue(TextOf(d) + rest) == Some((ValueOf(d), rest))
  {
    hide ScanNumber;
    hide ParseValue;
    hide NatOf;
    hide IsWhole;
    hide IsFraction;
    hide IsExponentParts;
    ScanParts(d.minus, d.whole, d.fraction, d.mark, d.sign, d.digits, rest);
    NumberOpens(d);
    ParseScanned(TextOf(d), rest);
  }

  lemma ParseWords(v: Json, rest: string)
    requires IsWord(v)
    ensures ParseValue(Dumps(v) + rest) == Some((v, rest))
  {
    hide ParseValue;
    match v
    case Null => ParseWord("null", v, rest);
    case Bool(b) => ParseWord(if b then "true" else "false", v, rest);
    case Float(word) => ParseConstant(word, rest);
  }

  lemma CloseItems(s: string, v: Json, read: seq<Json>, blank: string, rest: string)
    requires JsonBlank(blank) && ParseValue(s) == Some((v, blank + ("]" + rest)))
    ensures ParseItems(s, read) == Some((Arr(read + [v]), rest))
  {
    hide ParseValue;
    SkipTo(blank, "]" + rest);
    assert ("]" + rest)[1..] == rest;
  }

  lemma NextItem(s: string, v: Json, read: seq<Json>, blank: string, next: string, more: string)
    requires JsonBlank(blank) && JsonBlank(next) && Opens(more)
    requires ParseValue(s) == Some((v, blank + ("," + (next + more))))
    ensures ParseItems(s, read) == ParseItems(more, read + [v])
  {
    hide ParseValue;
    SkipTo(blank, "," + (next + more));
    assert ("," + (next + more))[1..] == next + more;
    SkipTo(next, more);
  }

  lemma MemberUnfolds(m: Member, close: string)
    ensures MemberText(m) + close
         == "\"" + (PiecesText(m.key) + "\"" + (m.beforeColon + (":" + (m.afterColon
              + (TextOf(m.document) + (m.after + close))))))
  {
    hide PiecesText;
    hide TextOf;
    var value := TextOf(m.document) + m.after;
    assert value + close == TextOf(m.document) + (m.after + close);
    var colon := ":" + (m.afterColon + value);
    assert colon + close == ":" + (m.afterColon + (value + close));
    var name := "\"" + PiecesText(m.key) + "\"";
    assert name + (m.beforeColon + colon) + close == name + (m.beforeColon + (colon + close));
    assert name == "\"" + (PiecesText(m.key) + "\"");
  }

  /** What the reader makes of a text that opens with a name and a colon. */
  lemma NameRead(s: string, key: string, beforeColon: string, afterColon: string, value: string,
                 read: Dict<string, Json>)
    requires s != "" && s[0] == '"' && JsonBlank(beforeColon) && JsonBlank(afterColon) && Opens(value)
    requires ScanString(s[1..]) == Some((key, beforeColon + (":" + (afterColon + value))))
    requires ParseValue(value).Some? && SkipSpace(ParseValue(value).value.1) != ""
    ensures var v, close := ParseValue(value).value.0, SkipSpace(ParseValue(value).value.1);
      ParseMembers(s, read) ==
        if close[0] == '}' then Some((Obj(Put(read, key, v)), close[1..]))
        else if close[0] == ',' then ParseMembers(SkipSpace(close[1..]), Put(read, key, v))
        else None
  {
    hide ParseValue;
    hide ScanString;
    hide Put;
    var colon := ":" + (afterColon + value);
    SkipTo(beforeColon, colon);
    assert colon[1..] == afterColon + value;
    SkipOpen(afterColon, value);
  }

  /** What `ParseMembers` makes of the text from a member's name on. */
  lemma MemberRead(m: Member, read: Dict<string, Json>, close: string)
    requires GoodMember(m) && close != "" && !IsJsonSpace(close[0])
    requires ParseValue(TextOf(m.document) + (m.after + close)) == Some((ValueOf(m.document), m.after + close))
    ensures var entries := Put(read, Characters(m.key), ValueOf(m.document));
      ParseMembers(MemberText(m) + close, read) ==
        if close[0] == '}' then Some((Obj(entries), close[1..]))
        else if close[0] == ',' then ParseMembers(SkipSpace(close[1..]), entries)
        else None
  {
    hide ParseValue;
    hide ParseMembers;
    hide ScanString;
    hide PiecesText;
    hide GoodPieces;
    hide MemberText;
    hide TextOf;
    hide ValueOf;
    hide Good;
    hide Put;
    hide Opens;
    var value := TextOf(m.document) + (m.after + close);
    var body := PiecesText(m.key) + "\"" + (m.beforeColon + (":" + (m.afterColon + value)));
    MemberUnfolds(m, close);
    assert ("\"" + body)[1..] == body;
    ScanPieces(m.key, m.beforeColon + (":" + (m.afterColon + value)));
    TextOpens(m.document, m.after + close);
    SkipTo(m.after, close);
    NameRead("\"" + body, Characters(m.key), m.beforeColon, m.afterColon, value, read);
  }

  /** The reader makes of any document the value it denotes, whatever follows it. */
  lemma {:induction false} ParseText(d: Document, rest: string)
    requires Good(d) && EndsNumber(rest)
    ensures ParseValue(TextOf(d) + rest) == Some((ValueOf(d), rest))
    decreases d, 0, 0
  {
    hide ParseValue;
    match d
    case Word(v) => ParseWords(v, rest);
    case Number(_, _, _, _, _, _) => ParseNumber(d, rest);
    case Quoted(pieces) => ParseQuoted(pieces, rest);
    case List(blank, items) => ParseList(blank, items, rest);
    case Members(blank, members) => ParseMembersOf(blank, members, rest);
  }

  lemma ParseList(blank: string, items: seq<Item>, rest: string)
    requires JsonBlank(blank) && GoodItems(items)
    ensures ParseValue(TextOf(List(blank, items)) + rest) == Some((Arr(Values(items, |items|)), rest))
    decreases items, 2, 0
  {
    hide ParseValue;
    hide ParseItems;
    hide Opens;
    var body := ItemsText(items) + ("]" + rest);
    assert TextOf(List(blank, items)) + rest == "[" + (blank + body);
    if items == [] {
      assert body == "]" + rest;
      ParseClosed(blank, rest);
    } else {
      ItemsOpen(items, "]" + rest);
      ParseOpened(blank, body);
      assert items[0..] == items;
      ParseItemsText(items, 0, rest);
    }
  }

  lemma Regroup(text: string, after: string, next: string, tail: string, more: string)
    ensures text + after + more == text + (after + more)
    ensures text + after + ("," + (next + tail)) + more == text + (after + ("," + (next + (tail + more))))
  {
    assert ("," + (next + tail)) + more == "," + (next + (tail + more));
  }

  lemma ItemsTextSplit(items: seq<Item>, more: string)
    requires items != []
    ensures var item := items[0];
      ItemsText(items) + more == TextOf(item.document) + (item.after
        + if |items| == 1 then more else "," + (item.next + (ItemsText(items[1..]) + more)))
  {
    hide TextOf;
    var item := items[0];
    Regroup(TextOf(item.document), item.after, item.next, ItemsText(items[1..]), more);
  }

  lemma {:induction false} ParseItemsText(items: seq<Item>, n: nat, rest: string)
    requires n < |items| && GoodItems(items)
    ensures ParseItems(ItemsText(items[n..]) + ("]" + rest), Values(items, n))
         == Some((Arr(Values(items, |items|)), rest))
    decreases items, 1, |items| - n
  {
    hide ParseValue;
    hide ParseItems;
    hide TextOf;
    hide ValueOf;
    hide Good;
    hide Opens;
    var item, left := items[n], items[n..];
    var s, read, v := ItemsText(left) + ("]" + rest), Values(items, n), ValueOf(item.document);
    assert left[0] == item && GoodItem(item);
    ItemsTextSplit(left, "]" + rest);
    assert Values(items, n + 1) == read + [v];
    if n + 1 == |items| {
      BlankEndsNumber(item.after, "]" + rest);
      ParseText(item.document, item.after + ("]" + rest));
      CloseItems(s, v, read, item.after, rest);
    } else {
      assert left[1..] == items[n + 1..];
      var more := ItemsText(items[n + 1..]) + ("]" + rest);
      var comma := "," + (item.next + more);
      BlankEndsNumber(item.after, comma);
      ParseText(item.document, item.after + comma);
      ItemsOpen(items[n + 1..], "]" + rest);
      NextItem(s, v, read, item.after, item.next, more);
      ParseItemsText(items, n + 1, rest);
    }
  }

  lemma ParseMembersOf(blank: string, members: seq<Member>, rest: string)
    requires JsonBlank(blank) && GoodMembers(members)
    ensures ParseValue(TextOf(Members(blank, members)) + rest) == Some((Obj(Fields([], members, |members|)), rest))
    decreases members, 2, 0
  {
    hide ParseValue;
    hide ParseMembers;
    hide Opens;
    var body := MembersText(members) + ("}" + rest);
    assert TextOf(Members(blank, members)) + rest == "{" + (blank + body);
    if members == [] {
      assert body == "}" + rest;
      ParseClosed(blank, rest);
    } else {
      MembersOpen(members, "}" + rest);
      ParseOpened(blank, body);
      assert members[0..] == members;
      ParseMembersText(members, 0, rest);
    }
  }

  lemma {:induction false} ParseMembersText(members: seq<Member>, n: nat, rest: string)
    requires n < |members| && GoodMembers(members)
    ensures ParseMembers(MembersText(members[n..]) + ("}" + rest), Fields([], members, n))
         == Some((Obj(Fields([], members, |members|)), rest))
    decreases members, 1, |members| - n
  {
    hide ParseValue;
    hide ParseMembers;
    hide TextOf;
    hide MemberText;
    hide ValueOf;
    hide Good;
    hide GoodPieces;
    hide Opens;
    hide Put;
    var m, left := members[n], members[n..];
    var read := Fields([], members, n);
    assert left[0] == m && GoodMember(m);
    if n + 1 == |members| {
      var close := "}" + rest;
      assert MembersText(left) + close == MemberText(m) + close;
      BlankEndsNumber(m.after, close);
      ParseText(m.document, m.after + close);
      MemberRead(m, read, close);
      assert close[1..] == rest;
    } else {
      assert left[1..] == members[n + 1..];
      var more := MembersText(members[n + 1..]) + ("}" + rest);
      var close := "," + (m.next + more);
      assert MembersText(left) + ("}" + rest) == MemberText(m) + close;
      BlankEndsNumber(m.after, close);
      ParseText(m.document, m.after + close);
      MemberRead(m, read, close);
      assert close[1..] == m.next + more;
      MembersOpen(members[n + 1..], "}" + rest);
      SkipOpen(m.next, more);
      ParseMembersText(members, n + 1, rest);
    }
  }

  /** `json.loads` of any document, with any white space around it, is the value it denotes. */
  lemma LoadsDocument(d: Document, before: string, after: string)
    requires Good(d) && JsonBlank(before) && JsonBlank(after)
    ensures Loads(before + TextOf(d) + after) == Some(ValueOf(d))
  {
    hide TextOf;
    hide ValueOf;
    hide Good;
    hide ParseValue;
    var text := TextOf(d) + after;
    assert before + TextOf(d) + after == before + text;
    TextOpens(d, after);
    SkipTo(before, text);
    ParseText(d, after);
    SkipBlank(after, "");
    assert after + "" == after;
  }

  // ----- Whatever is read is a document -----

  lemma HeadTail(s: string)
    requires s != ""
    ensures s == [s[0]] + s[1..]
  {}

  lemma Regrouped(a: string, b: string, c: string)
    ensures a + b + c == a + (b + c)
  {}

  lemma {:induction false} BlankOf(s: string) returns (blank: string)
    ensures JsonBlank(blank) && s == blank + SkipSpace(s)
  {
    hide IsJsonSpace;
    if s != "" && IsJsonSpace(s[0]) {
      var tail := BlankOf(s[1..]);
      blank := [s[0]] + tail;
      HeadTail(s);
      Regrouped([s[0]], tail, SkipSpace(s[1..]));
    } else {
      blank := "";
    }
  }

  lemma CodeOf(s: string)
    requires ScanHex4(s).Some?
    ensures HexNat(s[..4]) == ScanHex4(s) && s == s[..4] + s[4..] && |s[..4]| == 4
  {
    hide HexNat;
  }

  lemma UnicodeOf(s: string, c: char, rest: string) returns (p: Piece)
    requires ScanUnicode(s) == Some((c, rest))
    ensures GoodPiece(p) && "\\u" + s == PieceText(p) + rest && PieceChar(p) == c
  {
    CodeOf(s);
    hide HexNat;
    var n := ScanHex4(s).value;
    if n < 0xD800 || 0xDFFF < n {
      p := Code(s[..4]);
      assert "\\u" + (s[..4] + rest) == "\\u" + s[..4] + rest;
    } else {
      var low := PairOf(s, c, rest);
      p := Pair(s[..4], low);
    }
  }

  lemma PairOf(s: string, c: char, rest: string) returns (low: string)
    requires ScanUnicode(s) == Some((c, rest)) && 0xD800 <= ScanHex4(s).value <= 0xDFFF
    ensures ScanHex4(s).value <= 0xDBFF && IsCode(low, 0xDC00, 0xDFFF)
    ensures "\\u" + s == "\\u" + s[..4] + ("\\u" + low) + rest
    ensures c == (0x10000 + (ScanHex4(s).value - 0xD800) * 1024 + (HexNat(low).value - 0xDC00)) as char
  {
    CodeOf(s[6..]);
    hide HexNat;
    hide ScanHex4;
    low := s[6..][..4];
    assert s[6..][4..] == s[10..];
    assert s[..4] + ("\\u" + s[6..]) == s;
    Paired(s[..4], low, rest);
  }

  lemma Paired(high: string, low: string, rest: string)
    ensures "\\u" + (high + ("\\u" + (low + rest))) == "\\u" + high + ("\\u" + low) + rest
  {}

  lemma PieceOf(s: string, c: char, rest: string) returns (p: Piece)
    requires ScanChar(s) == Some((c, rest))
    ensures GoodPiece(p) && s == PieceText(p) + rest && PieceChar(p) == c
  {
    hide ScanUnicode;
    if s[0] != '\\' {
      p := Itself(s[0]);
      assert s == [s[0]] + s[1..];
    } else if s[1] == 'u' {
      p := UnicodeOf(s[2..], c, rest);
      assert s == "\\u" + s[2..];
    } else {
      p := Letter(s[1]);
      assert s == "\\" + [s[1]] + s[2..];
    }
  }

  lemma {:induction false} PiecesOf(s: string, t: string, rest: string) returns (pieces: seq<Piece>)
    requires ScanString(s) == Some((t, rest))
    ensures GoodPieces(pieces) && s == PiecesText(pieces) + "\"" + rest && Characters(pieces) == t
    decreases |s|
  {
    hide ScanChar;
    hide PieceText;
    hide PieceChar;
    hide GoodPiece;
    if s != "" && s[0] == '"' {
      pieces := [];
      assert s == "\"" + s[1..];
    } else {
      var c, tail := ScanChar(s).value.0, ScanChar(s).value.1;
      var p := PieceOf(s, c, tail);
      var more := PiecesOf(tail, t[1..], rest);
      pieces := [p] + more;
      assert pieces[1..] == more;
      assert s == PieceText(p) + (PiecesText(more) + "\"" + rest);
    }
  }

  lemma FractionOf(s: string)
    ensures IsFraction(s[..FractionRun(s)])
  {
    var n := FractionRun(s);
    if n > 0 {
      assert s[..n][1..] == s[1..][..n - 1];
    }
  }

  lemma ExponentOf(s: string) returns (mark: string, sign: string, digits: string)
    ensures IsExponentParts(mark, sign, digits) && s[..ExponentRun(s)] == mark + (sign + digits)
    ensures mark == "" <==> ExponentRun(s) == 0
    ensures mark == "" ==> mark + (sign + digits) == ""
  {
    var n := ExponentRun(s);
    if n == 0 {
      mark, sign, digits := "", "", "";
    } else {
      var k := if s[1] == '+' || s[1] == '-' then 2 else 1;
      mark, sign, digits := s[..1], s[1..k], s[k..][..n - k];
      assert s[..n] == mark + (sign + digits);
    }
  }

  lemma WholeOf(s: string)
    requires IntegerRun(s) > 0
    ensures IsWhole(s[..IntegerRun(s)])
  {}

  lemma CutPoint(s: string, n: nat)
    requires n <= |s|
    ensures s == s[..n] + s[n..]
  {}

  /** The parts of a number, with what follows the whole part, the fraction and the exponent. */
  lemma PartsOf(u: string)
    returns (whole: string, fraction: string, mark: string, sign: string, digits: string, a: string, b: string,
             after: string)
    requires IntegerRun(u) > 0
    ensures IsWhole(whole) && IsFraction(fraction) && IsExponentParts(mark, sign, digits)
    ensures mark == "" ==> mark + (sign + digits) == ""
    ensures u == whole + a && a == fraction + b && b == mark + (sign + digits) + after
    ensures IntegerRun(u) == |whole| && FractionRun(a) == |fraction|
    ensures ExponentRun(b) == |mark + (sign + digits)|
  {
    hide IntegerRun;
    hide FractionRun;
    hide ExponentRun;
    hide IsWhole;
    hide IsFraction;
    hide IsExponentParts;
    WholeOf(u);
    CutPoint(u, IntegerRun(u));
    whole, a := u[..IntegerRun(u)], u[IntegerRun(u)..];
    FractionOf(a);
    CutPoint(a, FractionRun(a));
    fraction, b := a[..FractionRun(a)], a[FractionRun(a)..];
    mark, sign, digits := ExponentOf(b);
    CutPoint(b, ExponentRun(b));
    after := b[ExponentRun(b)..];
  }

  lemma NumberRead(d: Document, exponent: string, after: string)
    requires d.Number? && Good(d) && exponent == d.mark + (d.sign + d.digits) && (d.mark == "" ==> exponent == "")
    requires IntegerRun(d.whole + (d.fraction + (exponent + after))) == |d.whole|
    requires FractionRun(d.fraction + (exponent + after)) == |d.fraction|
    requires ExponentRun(exponent + after) == |exponent|
    ensures ScanNumber(TextOf(d) + after) == Some((ValueOf(d), after))
  {
    hide ScanNumber;
    hide IntegerRun;
    hide FractionRun;
    hide ExponentRun;
    hide NatOf;
    ScanRead(d.minus, d.whole, d.fraction, exponent, after);
  }

  lemma Joined(minus: string, whole: string, fraction: string, exponent: string, after: string)
    ensures minus + (whole + (fraction + (exponent + after))) == minus + (whole + (fraction + exponent)) + after
  {}

  lemma NumberStarts(s: string) returns (minus: string, u: string)
    requires ScanNumber(s).Some?
    ensures (minus == "" || minus == "-") && s == minus + u && IntegerRun(u) > 0
  {
    hide IntegerRun;
    hide FractionRun;
    hide ExponentRun;
    hide NatOf;
    minus := if s != "" && s[0] == '-' then "-" else "";
    u := s[|minus|..];
    assert s == minus + u;
  }

  lemma MakeNumber(minus: string, whole: string, fraction: string, mark: string, sign: string, digits: string)
    returns (d: Document)
    requires minus == "" || minus == "-"
    requires IsWhole(whole) && IsFraction(fraction) && IsExponentParts(mark, sign, digits)
    ensures d == Number(minus, whole, fraction, mark, sign, digits) && Good(d)
    ensures TextOf(d) == minus + (whole + (fraction + (mark + (sign + digits))))
  {
    hide IsWhole;
    hide IsFraction;
    hide IsExponentParts;
    d := Number(minus, whole, fraction, mark, sign, digits);
  }

  lemma NumberOf(s: string, v: Json, rest: string) returns (d: Document)
    requires ScanNumber(s) == Some((v, rest))
    ensures d.Number? && Good(d) && s == TextOf(d) + rest && ValueOf(d) == v
  {
    hide ScanNumber;
    hide IntegerRun;
    hide FractionRun;
    hide ExponentRun;
    hide IsWhole;
    hide IsFraction;
    hide IsExponentParts;
    hide Good;
    hide TextOf;
    hide ValueOf;
    var minus, u := NumberStarts(s);
    var whole, fraction, mark, sign, digits, a, b, after := PartsOf(u);
    d := MakeNumber(minus, whole, fraction, mark, sign, digits);
    Joined(minus, whole, fraction, mark + (sign + digits), after);
    NumberRead(d, mark + (sign + digits), after);
  }

  lemma LiteralOf(s: string, word: string, v: Json, rest: string)
    requires word != "" && Literal(s, word, v) == Some((v, rest))
    ensures s == word + rest
  {}

  lemma WordOf(s: string, v: Json, rest: string) returns (d: Document)
    requires ParseValue(s) == Some((v, rest)) && s[0] !in {'"', '[', '{'}
    requires s[0] in {'n', 't', 'f', 'N', 'I'} || StartsWith(s, "-Infinity")
    ensures Good(d) && s == TextOf(d) + rest && ValueOf(d) == v
  {
    hide ScanNumber;
    hide ScanString;
    hide ParseItems;
    hide ParseMembers;
    d := Word(v);
    LiteralOf(s, Dumps(v), v, rest);
  }

  lemma QuotedOf(s: string, v: Json, rest: string) returns (d: Document)
    requires ParseValue(s) == Some((v, rest)) && s[0] == '"'
    ensures Good(d) && s == TextOf(d) + rest && ValueOf(d) == v
  {
    hide ScanString;
    hide PiecesText;
    hide Characters;
    hide GoodPieces;
    var pieces := PiecesOf(s[1..], v.s, rest);
    d := Quoted(pieces);
    assert s == "\"" + s[1..];
    assert s == TextOf(d) + rest;
  }

  /** What the reader takes from the start of a text is a document that denotes the value read. */
  lemma {:induction false} DocumentOf(s: string, v: Json, rest: string) returns (d: Document)
    requires ParseValue(s) == Some((v, rest))
    ensures Good(d) && s == TextOf(d) + rest && ValueOf(d) == v
    decreases |s|, 0
  {
    hide TextOf;
    hide ValueOf;
    hide Good;
    hide ScanNumber;
    hide ScanString;
    hide ParseItems;
    hide ParseMembers;
    if s[0] == '"' {
      d := QuotedOf(s, v, rest);
    } else if s[0] == '[' {
      d := ListOf(s, v, rest);
    } else if s[0] == '{' {
      d := MembersFrom(s, v, rest);
    } else if s[0] in {'n', 't', 'f', 'N', 'I'} || StartsWith(s, "-Infinity") {
      d := WordOf(s, v, rest);
    } else {
      d := NumberOf(s, v, rest);
    }
  }

  lemma Enclosed(open: string, blank: string, body: string, close: string, rest: string)
    ensures open + (blank + (body + close)) + rest == open + (blank + (body + (close + rest)))
  {}

  /** A list in its parts. */
  lemma ListParts(blank: string, items: seq<Item>, rest: string)
    requires JsonBlank(blank) && GoodItems(items)
    ensures Good(List(blank, items)) && ValueOf(List(blank, items)) == Arr(Values(items, |items|))
    ensures TextOf(List(blank, items)) + rest == "[" + (blank + (ItemsText(items) + ("]" + rest)))
  {
    hide JsonBlank;
    hide TextOf;
    hide Good;
    hide ValueOf;
    hide ItemsText;
    hide Values;
    hide Fields;
    hide GoodItems;
    ListValue(blank, items);
    ListOuter(blank, items);
    Enclosed("[", blank, ItemsText(items), "]", rest);
  }

  lemma ListValue(blank: string, items: seq<Item>)
    requires JsonBlank(blank) && GoodItems(items)
    ensures Good(List(blank, items)) && ValueOf(List(blank, items)) == Arr(Values(items, |items|))
  {
    hide JsonBlank;
    hide TextOf;
    hide GoodItem;
    hide Values;
    hide Fields;
  }

  lemma ListOuter(blank: string, items: seq<Item>)
    ensures TextOf(List(blank, items)) == "[" + (blank + (ItemsText(items) + "]"))
  {
    hide ItemsText;
  }

  lemma MembersParts(blank: string, members: seq<Member>, rest: string)
    requires JsonBlank(blank) && GoodMembers(members)
    ensures Good(Members(blank, members)) && ValueOf(Members(blank, members)) == Obj(Fields([], members, |members|))
    ensures TextOf(Members(blank, members)) + rest == "{" + (blank + (MembersText(members) + ("}" + rest)))
  {
    hide JsonBlank;
    hide TextOf;
    hide Good;
    hide ValueOf;
    hide MembersText;
    hide Values;
    hide Fields;
    hide GoodMembers;
    MembersValue(blank, members);
    MembersOuter(blank, members);
    Enclosed("{", blank, MembersText(members), "}", rest);
  }

  lemma MembersValue(blank: string, members: seq<Member>)
    requires JsonBlank(blank) && GoodMembers(members)
    ensures Good(Members(blank, members)) && ValueOf(Members(blank, members)) == Obj(Fields([], members, |members|))
  {
    hide JsonBlank;
    hide TextOf;
    hide GoodMember;
    hide Values;
    hide Fields;
  }

  lemma MembersOuter(blank: string, members: seq<Member>)
    ensures TextOf(Members(blank, members)) == "{" + (blank + (MembersText(members) + "}"))
  {
    hide MembersText;
  }

  lemma ParseBracket(s: string)
    requires s != "" && s[0] == '['
    ensures var body := SkipSpace(s[1..]);
      ParseValue(s) == if body != [] && body[0] == ']' then Some((Arr([]), body[1..])) else ParseItems(body, [])
  {
    hide SkipSpace;
    hide ParseItems;
    hide ParseMembers;
    hide ScanString;
    hide ScanNumber;
  }

  lemma ParseBrace(s: string)
    requires s != "" && s[0] == '{'
    ensures var body := SkipSpace(s[1..]);
      ParseValue(s) == if body != [] && body[0] == '}' then Some((Obj([]), body[1..])) else ParseMembers(body, [])
  {
    hide SkipSpace;
    hide ParseItems;
    hide ParseMembers;
    hide ScanString;
    hide ScanNumber;
  }

  lemma ListOf(s: string, v: Json, rest: string) returns (d: Document)
    requires ParseValue(s) == Some((v, rest)) && s != "" && s[0] == '['
    ensures Good(d) && s == TextOf(d) + rest && ValueOf(d) == v
    decreases |s| - 1, 3
  {
    hide ParseValue;
    hide ParseItems;
    hide Good;
    hide GoodItem;
    hide ItemsText;
    hide TextOf;
    hide ValueOf;
    hide JsonBlank;
    var body := SkipSpace(s[1..]);
    var blank := BlankOf(s[1..]);
    HeadTail(s);
    ParseBracket(s);
    if body != "" && body[0] == ']' {
      HeadTail(body);
      d := List(blank, []);
      ListParts(blank, [], rest);
      EmptyTexts();
      assert "" + ("]" + rest) == "]" + rest;
    } else {
      hide Values;
      hide SkipSpace;
      var items := ItemsOf(body, [], v, rest);
      d := List(blank, items);
      ListParts(blank, items, rest);
      assert [] + Values(items, |items|) == Values(items, |items|);
    }
  }

  lemma EmptyTexts()
    ensures ItemsText([]) == "" && MembersText([]) == ""
  {}

  lemma {:induction false} ValuesCons(item: Item, items: seq<Item>, n: nat)
    requires GoodItem(item) && GoodItems(items) && n <= |items|
    ensures GoodItems([item] + items)
    ensures Values([item] + items, n + 1) == [ValueOf(item.document)] + Values(items, n)
    decreases n
  {
    hide ValueOf;
    hide GoodItem;
    if n > 0 {
      ValuesCons(item, items, n - 1);
      assert ([item] + items)[n] == items[n - 1];
    } else {
      assert ([item] + items)[0] == item;
    }
  }

  /** The first item of a text, and the text from the comma or bracket after it. */
  lemma ItemOf(s: string, read: seq<Json>) returns (i: Item, more: string)
    requires ParseItems(s, read).Some?
    ensures GoodItem(i) && i.next == "" && s == TextOf(i.document) + (i.after + more) && more != ""
    ensures ParseItems(s, read) ==
      if more[0] == ']' then Some((Arr(read + [ValueOf(i.document)]), more[1..]))
      else if more[0] == ',' then ParseItems(SkipSpace(more[1..]), read + [ValueOf(i.document)])
      else None
    decreases |s|, 1
  {
    hide ParseValue;
    hide TextOf;
    hide ValueOf;
    hide Good;
    var w, after := ParseValue(s).value.0, ParseValue(s).value.1;
    var d := DocumentOf(s, w, after);
    more := SkipSpace(after);
    var blank := BlankOf(after);
    i := Item(d, blank, "");
  }

  lemma ItemsTextCons(i: Item, items: seq<Item>, more: string)
    requires items != []
    ensures ItemsText([i] + items) + more
         == TextOf(i.document) + (i.after + ("," + (i.next + (ItemsText(items) + more))))
  {
    hide TextOf;
    hide ItemsText;
    assert ([i] + items)[1..] == items;
    ItemsTextSplit([i] + items, more);
  }

  lemma OneItemText(i: Item, more: string)
    ensures ItemsText([i]) + more == TextOf(i.document) + (i.after + more)
  {
    hide TextOf;
    assert TextOf(i.document) + i.after + more == TextOf(i.document) + (i.after + more);
  }

  lemma NoItems()
    ensures GoodItems([])
  {}

  lemma {:induction false} ItemsOf(s: string, read: seq<Json>, v: Json, rest: string) returns (items: seq<Item>)
    requires ParseItems(s, read) == Some((v, rest))
    ensures items != [] && GoodItems(items) && s == ItemsText(items) + ("]" + rest)
    ensures v == Arr(read + Values(items, |items|))
    decreases |s|, 2
  {
    hide ParseItems;
    hide TextOf;
    hide ValueOf;
    hide GoodItems;
    hide Good;
    hide ItemsText;
    hide SkipSpace;
    var i, more := ItemOf(s, read);
    HeadTail(more);
    if more[0] == ']' {
      items := [i];
      NoItems();
      ValuesCons(i, [], 0);
      assert [i] + [] == items;
      OneItemText(i, "]" + rest);
    } else {
      hide Values;
      var next := BlankOf(more[1..]);
      var i' := i.(next := next);
      assert GoodItem(i');
      hide GoodItem;
      var tail := ItemsOf(SkipSpace(more[1..]), read + [ValueOf(i.document)], v, rest);
      items := [i'] + tail;
      ItemsTextCons(i', tail, "]" + rest);
      ValuesCons(i', tail, |tail|);
      Grouped(read, [ValueOf(i.document)], Values(tail, |tail|));
    }
  }

  lemma Grouped<T>(a: seq<T>, b: seq<T>, c: seq<T>)
    ensures a + b + c == a + (b + c)
  {}

  lemma MembersFrom(s: string, v: Json, rest: string) returns (d: Document)
    requires ParseValue(s) == Some((v, rest)) && s != "" && s[0] == '{'
    ensures Good(d) && s == TextOf(d) + rest && ValueOf(d) == v
    decreases |s| - 1, 3
  {
    hide ParseValue;
    hide ParseMembers;
    hide Good;
    hide GoodMember;
    hide MembersText;
    hide TextOf;
    hide ValueOf;
    hide JsonBlank;
    var body := SkipSpace(s[1..]);
    var blank := BlankOf(s[1..]);
    HeadTail(s);
    ParseBrace(s);
    if body != "" && body[0] == '}' {
      HeadTail(body);
      d := Members(blank, []);
      MembersParts(blank, [], rest);
      EmptyTexts();
      assert "" + ("}" + rest) == "}" + rest;
    } else {
      hide Fields;
      hide SkipSpace;
      var members := MembersOf(body, [], v, rest);
      d := Members(blank, members);
      MembersParts(blank, members, rest);
    }
  }

  lemma {:induction false} FieldsCons(read: Dict<string, Json>, m: Member, members: seq<Member>, n: nat)
    requires GoodMember(m) && GoodMembers(members) && n <= |members|
    ensures GoodMembers([m] + members)
    ensures Fields(read, [m] + members, n + 1)
         == Fields(Put(read, Characters(m.key), ValueOf(m.document)), members, n)
    decreases n
  {
    hide ValueOf;
    hide Put;
    hide Characters;
    hide Good;
    hide GoodPieces;
    if n > 0 {
      FieldsCons(read, m, members, n - 1);
      assert ([m] + members)[n] == members[n - 1];
    } else {
      assert ([m] + members)[0] == m;
    }
  }

  lemma MemberParts(s: string, m: Member, colon: string, value: string, more: string)
    requires s != "" && s[0] == '"' && s[1..] == PiecesText(m.key) + "\"" + (m.beforeColon + colon)
    requires colon != "" && colon[0] == ':' && colon[1..] == m.afterColon + value
    requires value == TextOf(m.document) + (m.after + more)
    ensures s == MemberText(m) + more
  {
    hide PiecesText;
    hide TextOf;
    assert colon == ":" + (m.afterColon + value);
    assert s == "\"" + s[1..];
  }

  /** The first member of a text, and the text from the comma or brace after it. */
  lemma MemberOf(s: string, read: Dict<string, Json>) returns (m: Member, more: string)
    requires ParseMembers(s, read).Some?
    ensures GoodPieces(m.key) && Good(m.document)
    ensures GoodMember(m) && m.next == "" && s == MemberText(m) + more && more != ""
    ensures var entries := Put(read, Characters(m.key), ValueOf(m.document));
      ParseMembers(s, read) ==
        if more[0] == '}' then Some((Obj(entries), more[1..]))
        else if more[0] == ',' then ParseMembers(SkipSpace(more[1..]), entries)
        else None
    decreases |s|, 1
  {
    hide ParseValue;
    hide TextOf;
    hide ValueOf;
    hide Good;
    hide GoodPieces;
    hide ScanString;
    hide Characters;
    hide PiecesText;
    hide MemberText;
    hide Put;
    var key, afterKey := ScanString(s[1..]).value.0, ScanString(s[1..]).value.1;
    var pieces := PiecesOf(s[1..], key, afterKey);
    var colon := SkipSpace(afterKey);
    var value := SkipSpace(colon[1..]);
    var beforeColon := BlankOf(afterKey);
    var afterColon := BlankOf(colon[1..]);
    var w, after := ParseValue(value).value.0, ParseValue(value).value.1;
    var d := DocumentOf(value, w, after);
    more := SkipSpace(after);
    var blank := BlankOf(after);
    m := Member(pieces, beforeColon, afterColon, d, blank, "");
    MemberParts(s, m, colon, value, more);
  }

  lemma OneMemberText(m: Member)
    ensures MembersText([m]) == MemberText(m)
  {
    hide MemberText;
  }

  lemma MembersTextCons(m: Member, members: seq<Member>, more: string)
    requires members != []
    ensures MembersText([m] + members) + more == MemberText(m) + ("," + (m.next + (MembersText(members) + more)))
  {
    hide MemberText;
    assert ([m] + members)[1..] == members;
  }

  lemma WithNext(m: Member, next: string) returns (m': Member)
    requires GoodMember(m) && JsonBlank(next)
    ensures GoodMember(m') && m' == m.(next := next) && MemberText(m') == MemberText(m)
  {
    m' := m.(next := next);
  }

  lemma {:induction false} MembersOf(s: string, read: Dict<string, Json>, v: Json, rest: string)
    returns (members: seq<Member>)
    requires ParseMembers(s, read) == Some((v, rest))
    ensures members != [] && GoodMembers(members) && s == MembersText(members) + ("}" + rest)
    ensures v == Obj(Fields(read, members, |members|))
    decreases |s|, 2
  {
    hide ParseMembers;
    hide TextOf;
    hide ValueOf;
    hide GoodMember;
    hide GoodMembers;
    hide Characters;
    hide MemberText;
    hide MembersText;
    hide Put;
    hide SkipSpace;
    var m, more := MemberOf(s, read);
    var entries := Put(read, Characters(m.key), ValueOf(m.document));
    HeadTail(more);
    if more[0] == '}' {
      members := [m];
      NoMembers();
      FieldsCons(read, m, [], 0);
      assert [m] + [] == members;
      OneMemberText(m);
    } else {
      hide Fields;
      var left := SkipSpace(more[1..]);
      var next := BlankOf(more[1..]);
      var m' := WithNext(m, next);
      var tail := MembersOf(left, entries, v, rest);
      members := [m'] + tail;
      MembersTextCons(m', tail, "}" + rest);
      FieldsCons(read, m', tail, |tail|);
    }
  }

  lemma NoMembers()
    ensures GoodMembers([])
  {}

  /** `s` is document `d` with white space around it, and denotes `v`. */
  ghost predicate Spells(s: string, v: Json, d: Document, before: string, after: string) {
    Good(d) && JsonBlank(before) && JsonBlank(after) && s == before + TextOf(d) + after && ValueOf(d) == v
  }

  /** A text is read exactly when it is a document with white space around it, and as the value it denotes. */
  lemma LoadsExactly(s: string, v: Json)
    ensures Loads(s) == Some(v) <==> exists d, before, after :: Spells(s, v, d, before, after)
  {
    hide TextOf;
    hide ValueOf;
    hide Good;
    hide ParseValue;
    if Loads(s) == Some(v) {
      var before := BlankOf(s);
      var text := SkipSpace(s);
      var after := ParseValue(text).value.1;
      var d := DocumentOf(text, v, after);
      var blank := BlankOf(after);
      assert blank + "" == blank;
      assert before + TextOf(d) + after == before + (TextOf(d) + after);
      assert Spells(s, v, d, before, after);
    }
    forall d, before, after | Spells(s, v, d, before, after)
      ensures Loads(s) == Some(v)
    {
      LoadsDocument(d, before, after);
    }
  }
}
