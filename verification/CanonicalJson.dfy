/**
 Compact ASCII JSON as Python's json.dumps writes it, and a parser for it (sections 4 to 7 of RFC 8259).
 The parser is the printer's inverse, so the printed text determines the value.
 */
module CanonicalJson {
  import opened Basics
  import opened Tags

  predicate IsDigit(c: char) {
    '0' <= c <= '9'
  }

  predicate IsNumberChar(c: char) {
    IsDigit(c) || c in "-+.e"
  }

  predicate AllNumberChars(s: string) {
    forall i | 0 <= i < |s| :: IsNumberChar(s[i])
  }

  /** The repr of a finite float: it has a point or an exponent, which no integer has. */
  predicate IsFloatRepr(s: string) {
    s != "" && (IsDigit(s[0]) || s[0] == '-') && AllNumberChars(s) && ('.' in s || 'e' in s)
  }

  type FloatRepr = s: string | IsFloatRepr(s) witness "0.0"

  datatype Json =
    | JNull
    | JBool(b: bool)
    | JInt(n: int)
    | JFloat(repr: FloatRepr)
    | JStr(s: string)
    | JList(items: seq<Json>)
    | JObj(fields: seq<Tagged<Json>>)

  // ---- Printer ----

  function HexDigit(d: int): char
    requires 0 <= d < 16
  {
    "0123456789abcdef"[d]
  }

  /** The escape of one UTF-16 code unit. */
  function Unit(n: int): (r: string)
    requires 0 <= n < 0x10000
    ensures |r| == 6 && r[0] == '\\' && r[1] == 'u'
  {
    ['\\', 'u', HexDigit(n / 16 / 16 / 16), HexDigit(n / 16 / 16 % 16), HexDigit(n / 16 % 16), HexDigit(n % 16)]
  }

  // The surrogate pair of a character beyond the basic plane.

  function High(c: char): (u: int)
    requires c as int >= 0x10000
    ensures 0xD800 <= u < 0xDC00
  {
    0xD800 + (c as int - 0x10000) / 0x400
  }

  function Low(c: char): (u: int)
    requires c as int >= 0x10000
    ensures 0xDC00 <= u < 0xE000
    ensures c as int == 0x10000 + (High(c) - 0xD800) * 0x400 + (u - 0xDC00)
  {
    0xDC00 + (c as int - 0x10000) % 0x400
  }

  /** The letter of a two-character escape. */
  function ShortEscape(c: char): Option<char> {
    if c == '"' || c == '\\' then Some(c)
    else if c == '\n' then Some('n')
    else if c == '\r' then Some('r')
    else if c == '\t' then Some('t')
    else if c as int == 0x0C then Some('f')
    else if c as int == 0x08 then Some('b')
    else None
  }

  function Escape(c: char): string {
    match ShortEscape(c)
    case Some(letter) => ['\\', letter]
    case None =>
      if ' ' <= c <= '~' then [c]
      else if c as int < 0x10000 then Unit(c as int)
      else Unit(High(c)) + Unit(Low(c))
  }

  function Digits(n: nat): string {
    (if n < 10 then "" else Digits(n / 10)) + [(48 + n % 10) as char]
  }

  function Decimal(n: int): string {
    if n < 0 then "-" + Digits(-n) else Digits(n)
  }

  /** The quoted string in front of rest, after its opening quote. */
  function Chars(s: string, rest: string): string {
    if s == "" then "\"" + rest else Escape(s[0]) + Chars(s[1..], rest)
  }

  /** The value printed in front of rest. */
  function Print(j: Json, rest: string): string
    decreases j, 1, 0
  {
    match j
    case JNull => "null" + rest
    case JBool(b) => (if b then "true" else "false") + rest
    case JInt(n) => Decimal(n) + rest
    case JFloat(repr) => repr + rest
    case JStr(s) => "\"" + Chars(s, rest)
    case JList(items) => "[" + if items == [] then "]" + rest else Items(j, 0, rest)
    case JObj(fields) => "{" + if fields == [] then "}" + rest else Fields(j, 0, rest)
  }

  /** The items from the k-th on. */
  function Items(j: Json, k: nat, rest: string): string
    requires j.JList? && k < |j.items|
    decreases j, 0, |j.items| - k
  {
    Print(j.items[k], if k == |j.items| - 1 then "]" + rest else "," + Items(j, k + 1, rest))
  }

  function Fields(j: Json, k: nat, rest: string): string
    requires j.JObj? && k < |j.fields|
    decreases j, 0, |j.fields| - k
  {
    "\"" + Chars(j.fields[k].tag,
                 ":" + Print(j.fields[k].value,
                             if k == |j.fields| - 1 then "}" + rest else "," + Fields(j, k + 1, rest)))
  }

  function Dumps(j: Json): string {
    Print(j, "")
  }

  // ---- Parser ----

  function HexValue(c: char): Option<int> {
    if '0' <= c <= '9' then Some(c as int - '0' as int)
    else if 'a' <= c <= 'f' then Some(c as int - 'a' as int + 10)
    else None
  }

  /** The code unit of an escape \uXXXX at the head of s. */
  function CodeUnit(s: string): (r: Option<int>)
    ensures r.Some? ==> |s| >= 6 && 0 <= r.value < 0x10000
  {
    if |s| < 6 || s[0] != '\\' || s[1] != 'u' then None
    else
      match (HexValue(s[2]), HexValue(s[3]), HexValue(s[4]), HexValue(s[5]))
      case (Some(a), Some(b), Some(c), Some(d)) => Some(a * 0x1000 + b * 0x100 + c * 0x10 + d)
      case _ => None
  }

  function ShortUnescape(letter: char): Option<char> {
    if letter == '"' || letter == '\\' then Some(letter)
    else if letter == 'n' then Some('\n')
    else if letter == 'r' then Some('\r')
    else if letter == 't' then Some('\t')
    else if letter == 'f' then Some(0x0C as char)
    else if letter == 'b' then Some(0x08 as char)
    else None
  }

  /** The character of a \uXXXX escape, or of two that form a surrogate pair. */
  function UnescapeUnit(s: string): (r: Option<(char, string)>)
    ensures r.Some? ==> |r.value.1| < |s|
  {
    match CodeUnit(s)
    case None => None
    case Some(u) =>
      if u < 0xD800 || 0xE000 <= u then Some((u as char, s[6..]))
      else
        match CodeUnit(s[6..])
        case None => None
        case Some(w) =>
          if u < 0xDC00 <= w < 0xE000
          then Some(((0x10000 + (u - 0xD800) * 0x400 + (w - 0xDC00)) as char, s[12..]))
          else None
  }

  function Unescape(s: string): (r: Option<(char, string)>)
    ensures r.Some? ==> |r.value.1| < |s|
  {
    if |s| < 2 then None
    else
      match ShortUnescape(s[1])
      case Some(c) => Some((c, s[2..]))
      case None => UnescapeUnit(s)
  }

  function ParseChars(s: string): (r: Option<(string, string)>)
    ensures r.Some? ==> |r.value.1| < |s|
    decreases |s|
  {
    if s == "" then None
    else if s[0] == '"' then Some(("", s[1..]))
    else
      match if s[0] == '\\' then Unescape(s) else Some((s[0], s[1..]))
      case None => None
      case Some((c, rest)) =>
        match ParseChars(rest)
        case None => None
        case Some((text, end)) => Some(([c] + text, end))
  }

  /** The length of the longest head made of number characters. */
  function NumberLength(s: string): (n: nat)
    ensures n <= |s|
  {
    if s == "" || !IsNumberChar(s[0]) then 0 else 1 + NumberLength(s[1..])
  }

  function NatOf(s: string): int {
    if s == "" then 0 else 10 * NatOf(s[..|s| - 1]) + (s[|s| - 1] as int - '0' as int)
  }

  function NumberOf(s: string): Json
    requires s != ""
  {
    if IsFloatRepr(s) then JFloat(s) else JInt(if s[0] == '-' then -NatOf(s[1..]) else NatOf(s))
  }

  function Parse(s: string): (r: Option<(Json, string)>)
    ensures r.Some? ==> |r.value.1| < |s|
    decreases |s|, 0
  {
    if s == "" then None
    else if s[0] == '"' then
      match ParseChars(s[1..])
      case None => None
      case Some((text, rest)) => Some((JStr(text), rest))
    else if s[0] == '[' then
      if |s| >= 2 && s[1] == ']' then Some((JList([]), s[2..]))
      else
        match ParseItems(s[1..])
        case None => None
        case Some((items, rest)) => Some((JList(items), rest))
    else if s[0] == '{' then
      if |s| >= 2 && s[1] == '}' then Some((JObj([]), s[2..]))
      else
        match ParseFields(s[1..])
        case None => None
        case Some((fields, rest)) => Some((JObj(fields), rest))
    else if "null" <= s then Some((JNull, s[4..]))
    else if "true" <= s then Some((JBool(true), s[4..]))
    else if "false" <= s then Some((JBool(false), s[5..]))
    else
      var n := NumberLength(s);
      if n == 0 then None else Some((NumberOf(s[..n]), s[n..]))
  }

  function ParseItems(s: string): (r: Option<(seq<Json>, string)>)
    ensures r.Some? ==> |r.value.1| < |s|
    decreases |s|, 1
  {
    match Parse(s)
    case None => None
    case Some((item, rest)) =>
      if rest != "" && rest[0] == ']' then Some(([item], rest[1..]))
      else if rest != "" && rest[0] == ',' then
        match ParseItems(rest[1..])
        case None => None
        case Some((items, end)) => Some(([item] + items, end))
      else None
  }

  function ParseField(s: string): (r: Option<(Tagged<Json>, string)>)
    ensures r.Some? ==> |r.value.1| < |s|
    decreases |s|, 1
  {
    if s == "" || s[0] != '"' then None
    else
      match ParseChars(s[1..])
      case None => None
      case Some((key, rest)) =>
        if rest == "" || rest[0] != ':' then None
        else
          match Parse(rest[1..])
          case None => None
          case Some((value, more)) => Some((Tagged(key, value), more))
  }

  function ParseFields(s: string): (r: Option<(seq<Tagged<Json>>, string)>)
    ensures r.Some? ==> |r.value.1| < |s|
    decreases |s|, 2
  {
    match ParseField(s)
    case None => None
    case Some((field, rest)) =>
      if rest != "" && rest[0] == '}' then Some(([field], rest[1..]))
      else if rest != "" && rest[0] == ',' then
        match ParseFields(rest[1..])
        case None => None
        case Some((fields, end)) => Some(([field] + fields, end))
      else None
  }

  // ---- The parser inverts the printer ----

  lemma HexBack(d: int)
    requires 0 <= d < 16
    ensures HexValue(HexDigit(d)) == Some(d)
  {
  }

  lemma CodeUnitBack(n: int, rest: string)
    requires 0 <= n < 0x10000
    ensures CodeUnit(Unit(n) + rest) == Some(n)
  {
    HexBack(n / 16 / 16 / 16);
    HexBack(n / 16 / 16 % 16);
    HexBack(n / 16 % 16);
    HexBack(n % 16);
  }

  lemma UnescapeLong(s: string)
    requires |s| >= 2 && s[1] == 'u'
    ensures Unescape(s) == UnescapeUnit(s)
  {
  }

  lemma UnitBack(c: char, rest: string)
    requires c as int < 0x10000
    ensures Unescape(Unit(c as int) + rest) == Some((c, rest))
  {
    CodeUnitBack(c as int, rest);
    UnescapeLong(Unit(c as int) + rest);
  }

  lemma UnescapeUnits(s: string, t: string, c: char)
    requires |s| == |t| + 6 && s[6..] == t && CodeUnit(s).Some? && CodeUnit(t).Some?
    requires c as int >= 0x10000 && CodeUnit(s).value == High(c) && CodeUnit(t).value == Low(c)
    ensures UnescapeUnit(s) == Some((c, t[6..]))
  {
    assert s[12..] == t[6..];
  }

  lemma PairBack(c: char, rest: string)
    requires c as int >= 0x10000
    ensures Unescape(Unit(High(c)) + Unit(Low(c)) + rest) == Some((c, rest))
  {
    var second := Unit(Low(c)) + rest;
    CodeUnitBack(High(c), second);
    CodeUnitBack(Low(c), rest);
    UnescapeUnits(Unit(High(c)) + second, second, c);
    UnescapeLong(Unit(High(c)) + second);
    assert Unit(High(c)) + Unit(Low(c)) + rest == Unit(High(c)) + second;
  }

  lemma ShortBack(c: char, rest: string)
    requires ShortEscape(c).Some?
    ensures Unescape(['\\', ShortEscape(c).value] + rest) == Some((c, rest))
  {
    assert (['\\', ShortEscape(c).value] + rest)[2..] == rest;
  }

  /** Both forms of a \u escape are read back. */
  lemma EscapeBack(c: char, rest: string)
    requires ShortEscape(c).None? && !(' ' <= c <= '~')
    ensures |Escape(c)| >= 6 && Escape(c)[0] == '\\' && Unescape(Escape(c) + rest) == Some((c, rest))
  {
    if c as int < 0x10000 {
      UnitBack(c, rest);
    } else {
      PairBack(c, rest);
    }
  }

  lemma CharBack(c: char, rest: string, text: string, end: string)
    requires ParseChars(rest) == Some((text, end))
    ensures ParseChars(Escape(c) + rest) == Some(([c] + text, end))
  {
    if ShortEscape(c).Some? {
      ShortBack(c, rest);
    } else if ' ' <= c <= '~' {
      assert ([c] + rest)[1..] == rest;
    } else {
      EscapeBack(c, rest);
    }
  }

  lemma {:induction false} CharsBack(s: string, rest: string)
    ensures ParseChars(Chars(s, rest)) == Some((s, rest))
  {
    if s == "" {
      assert Chars(s, rest)[1..] == rest;
    } else {
      CharsBack(s[1..], rest);
      CharBack(s[0], Chars(s[1..], rest), s[1..], rest);
      assert s == [s[0]] + s[1..];
    }
  }

  /** What can follow a value: nothing, or a delimiter. */
  predicate Delimited(rest: string) {
    rest == "" || rest[0] in ",]}"
  }

  lemma {:induction false} NumberLengthIs(token: string, rest: string)
    requires AllNumberChars(token) && Delimited(rest)
    ensures NumberLength(token + rest) == |token|
  {
    if token == "" {
      assert token + rest == rest;
    } else {
      NumberLengthIs(token[1..], rest);
      assert (token + rest)[1..] == token[1..] + rest;
    }
  }

  predicate AllDigits(s: string) {
    forall i | 0 <= i < |s| :: IsDigit(s[i])
  }

  lemma {:induction false} DigitsBack(n: nat)
    ensures AllDigits(Digits(n)) && Digits(n) != "" && NatOf(Digits(n)) == n
  {
    if n >= 10 {
      DigitsBack(n / 10);
    }
    var front := if n < 10 then "" else Digits(n / 10);
    assert Digits(n)[..|front|] == front;
  }

  lemma DigitsAreNoFloat(s: string)
    requires AllDigits(s)
    ensures AllNumberChars(s) && !IsFloatRepr(s)
    ensures AllNumberChars("-" + s) && !IsFloatRepr("-" + s)
  {
    assert '.' !in s && 'e' !in s;
  }

  lemma DecimalBack(n: int)
    ensures Decimal(n) != "" && (IsDigit(Decimal(n)[0]) || Decimal(n)[0] == '-')
    ensures AllNumberChars(Decimal(n)) && NumberOf(Decimal(n)) == JInt(n)
  {
    var digits := Digits(if n < 0 then -n else n);
    DigitsBack(if n < 0 then -n else n);
    DigitsAreNoFloat(digits);
    assert ("-" + digits)[1..] == digits;
  }

  lemma NumberBack(token: string, rest: string)
    requires token != "" && AllNumberChars(token) && Delimited(rest) && (IsDigit(token[0]) || token[0] == '-')
    ensures Parse(token + rest) == Some((NumberOf(token), rest))
  {
    var s := token + rest;
    NumberLengthIs(token, rest);
    assert s[..|token|] == token && s[|token|..] == rest;
    assert s[0] == token[0];
    assert "null"[0] == 'n' && "true"[0] == 't' && "false"[0] == 'f';
  }

  lemma WordBack(rest: string)
    ensures Parse("null" + rest) == Some((JNull, rest))
    ensures Parse("true" + rest) == Some((JBool(true), rest))
    ensures Parse("false" + rest) == Some((JBool(false), rest))
  {
    var n, t, f := "null" + rest, "true" + rest, "false" + rest;
    assert n[4..] == rest && t[4..] == rest && f[5..] == rest;
    assert t[0] != "null"[0] && f[0] != "null"[0] && f[0] != "true"[0];
  }

  /** The first character of a printed value: never one that closes a list or an object. */
  lemma PrintHead(j: Json, rest: string)
    ensures Print(j, rest) != "" && Print(j, rest)[0] != ']'
  {
    if j.JInt? { DecimalBack(j.n); }
  }

  /** Parsing what was printed gives the value back and leaves the rest. */
  lemma {:induction false} ParsePrint(j: Json, rest: string)
    requires Delimited(rest)
    ensures Parse(Print(j, rest)) == Some((j, rest))
    decreases j, 1, 0
  {
    match j
    case JNull => WordBack(rest);
    case JBool(b) => WordBack(rest);
    case JInt(n) =>
      DecimalBack(n);
      NumberBack(Decimal(n), rest);
    case JFloat(repr) => NumberBack(repr, rest);
    case JStr(s) =>
      CharsBack(s, rest);
      assert Print(j, rest)[1..] == Chars(s, rest);
    case JList(items) => ParseList(j, rest);
    case JObj(fields) => ParseObject(j, rest);
  }

  lemma {:induction false} ParseList(j: Json, rest: string)
    requires Delimited(rest) && j.JList?
    ensures Parse(Print(j, rest)) == Some((j, rest))
    decreases j, 0, |j.items| + 1
  {
    var s := Print(j, rest);
    if j.items == [] {
      assert s == "[]" + rest && s[2..] == rest;
    } else {
      ParseItemsBack(j, 0, rest);
      PrintHead(j.items[0], if |j.items| == 1 then "]" + rest else "," + Items(j, 1, rest));
      assert s[1..] == Items(j, 0, rest);
      assert j.items[0..] == j.items;
    }
  }

  lemma {:induction false} ParseItemsBack(j: Json, k: nat, rest: string)
    requires Delimited(rest) && j.JList? && k < |j.items|
    ensures ParseItems(Items(j, k, rest)) == Some((j.items[k..], rest))
    decreases j, 0, |j.items| - k
  {
    if k == |j.items| - 1 {
      ParsePrint(j.items[k], "]" + rest);
      LastItemBack(j, k, rest);
    } else {
      ParsePrint(j.items[k], "," + Items(j, k + 1, rest));
      ParseItemsBack(j, k + 1, rest);
      ItemThenBack(j, k, rest);
    }
  }

  lemma LastItemBack(j: Json, k: nat, rest: string)
    requires j.JList? && k == |j.items| - 1 && Parse(Print(j.items[k], "]" + rest)) == Some((j.items[k], "]" + rest))
    ensures ParseItems(Items(j, k, rest)) == Some((j.items[k..], rest))
  {
    assert j.items[k..] == [j.items[k]];
    assert ("]" + rest)[1..] == rest;
  }

  lemma ItemThenBack(j: Json, k: nat, rest: string)
    requires j.JList? && k + 1 < |j.items|
    requires var after := "," + Items(j, k + 1, rest); Parse(Print(j.items[k], after)) == Some((j.items[k], after))
    requires ParseItems(Items(j, k + 1, rest)) == Some((j.items[k + 1..], rest))
    ensures ParseItems(Items(j, k, rest)) == Some((j.items[k..], rest))
  {
    var tail := Items(j, k + 1, rest);
    ParseItemsMore(Items(j, k, rest), j.items[k], "," + tail, tail);
    assert j.items[k..] == [j.items[k]] + j.items[k + 1..];
  }

  lemma ParseItemsMore(s: string, item: Json, after: string, tail: string)
    requires Parse(s) == Some((item, after)) && after != "" && after[0] == ',' && after[1..] == tail &&
             ParseItems(tail).Some?
    ensures ParseItems(s) == Some(([item] + ParseItems(tail).value.0, ParseItems(tail).value.1))
  {
  }

  lemma {:induction false} ParseObject(j: Json, rest: string)
    requires Delimited(rest) && j.JObj?
    ensures Parse(Print(j, rest)) == Some((j, rest))
    decreases j, 0, |j.fields| + 1
  {
    var s := Print(j, rest);
    if j.fields == [] {
      assert s == "{}" + rest && s[2..] == rest;
    } else {
      ParseFieldsBack(j, 0, rest);
      assert s[1..] == Fields(j, 0, rest);
      assert s[1] == '"';
      assert j.fields[0..] == j.fields;
    }
  }

  lemma {:induction false} ParseFieldsBack(j: Json, k: nat, rest: string)
    requires Delimited(rest) && j.JObj? && k < |j.fields|
    ensures ParseFields(Fields(j, k, rest)) == Some((j.fields[k..], rest))
    decreases j, 0, |j.fields| - k
  {
    var f := j.fields[k];
    if k == |j.fields| - 1 {
      ParsePrint(f.value, "}" + rest);
      LastFieldBack(f, rest);
      assert j.fields[k..] == [f];
    } else {
      ParsePrint(f.value, "," + Fields(j, k + 1, rest));
      ParseFieldsBack(j, k + 1, rest);
      FieldsFromBack(j, k, rest);
    }
  }

  lemma FieldsFromBack(j: Json, k: nat, rest: string)
    requires j.JObj? && k + 1 < |j.fields|
    requires var after := "," + Fields(j, k + 1, rest);
             Parse(Print(j.fields[k].value, after)) == Some((j.fields[k].value, after))
    requires ParseFields(Fields(j, k + 1, rest)) == Some((j.fields[k + 1..], rest))
    ensures ParseFields(Fields(j, k, rest)) == Some((j.fields[k..], rest))
  {
    FieldThenBack(j.fields[k], Fields(j, k + 1, rest));
    assert j.fields[k..] == [j.fields[k]] + j.fields[k + 1..];
  }

  lemma LastFieldBack(f: Tagged<Json>, rest: string)
    requires Parse(Print(f.value, "}" + rest)) == Some((f.value, "}" + rest))
    ensures ParseFields("\"" + Chars(f.tag, ":" + Print(f.value, "}" + rest))) == Some(([f], rest))
  {
    FieldBack(f, "}" + rest);
    assert ("}" + rest)[1..] == rest;
  }

  lemma FieldThenBack(f: Tagged<Json>, tail: string)
    requires Parse(Print(f.value, "," + tail)) == Some((f.value, "," + tail)) && ParseFields(tail).Some?
    ensures ParseFields("\"" + Chars(f.tag, ":" + Print(f.value, "," + tail))) ==
            Some(([f] + ParseFields(tail).value.0, ParseFields(tail).value.1))
  {
    var after := "," + tail;
    FieldBack(f, after);
    ParseFieldsMore("\"" + Chars(f.tag, ":" + Print(f.value, after)), f, after, tail);
  }

  lemma ParseFieldsMore(s: string, f: Tagged<Json>, after: string, tail: string)
    requires ParseField(s) == Some((f, after)) && after != "" && after[0] == ',' && after[1..] == tail &&
             ParseFields(tail).Some?
    ensures ParseFields(s) == Some(([f] + ParseFields(tail).value.0, ParseFields(tail).value.1))
  {
  }

  lemma FieldBack(f: Tagged<Json>, after: string)
    requires Parse(Print(f.value, after)) == Some((f.value, after))
    ensures ParseField("\"" + Chars(f.tag, ":" + Print(f.value, after))) == Some((f, after))
  {
    var body := ":" + Print(f.value, after);
    CharsBack(f.tag, body);
    var s := "\"" + Chars(f.tag, body);
    assert s[1..] == Chars(f.tag, body) && body[1..] == Print(f.value, after);
  }

  /** Different values print differently, even in front of different texts. */
  lemma PrintInjective(a: Json, b: Json, r: string, s: string)
    requires Delimited(r) && Delimited(s)
    ensures Print(a, r) == Print(b, s) <==> a == b && r == s
  {
    ParsePrint(a, r);
    ParsePrint(b, s);
  }

  // ---- Printing in front of a text appends that text ----

  lemma {:induction false} CharsAppend(s: string, rest: string)
    ensures Chars(s, rest) == Chars(s, "") + rest
  {
    if s == "" {
    } else {
      CharsAppend(s[1..], rest);
    }
  }

  lemma {:induction false} PrintAppends(j: Json, rest: string)
    ensures Print(j, rest) == Dumps(j) + rest
    decreases j, 1, 0
  {
    match j
    case JStr(s) => CharsAppend(s, rest);
    case JList(items) => if items != [] { ItemsAppend(j, 0, rest); }
    case JObj(fields) => if fields != [] { FieldsAppend(j, 0, rest); }
    case _ =>
  }

  lemma {:induction false} ItemsAppend(j: Json, k: nat, rest: string)
    requires j.JList? && k < |j.items|
    ensures Items(j, k, rest) == Items(j, k, "") + rest
    decreases j, 0, |j.items| - k
  {
    if k == |j.items| - 1 {
      PrintAppends(j.items[k], "]" + rest);
      PrintAppends(j.items[k], "]" + "");
    } else {
      ItemsAppend(j, k + 1, rest);
      PrintAppends(j.items[k], "," + Items(j, k + 1, rest));
      PrintAppends(j.items[k], "," + Items(j, k + 1, ""));
    }
  }

  lemma {:induction false} FieldsAppend(j: Json, k: nat, rest: string)
    requires j.JObj? && k < |j.fields|
    ensures Fields(j, k, rest) == Fields(j, k, "") + rest
    decreases j, 0, |j.fields| - k
  {
    var f := j.fields[k];
    if k == |j.fields| - 1 {
      FieldAppends(f, "}", rest);
      assert "}" + "" == "}";
    } else {
      FieldsAppend(j, k + 1, rest);
      FieldAppends(f, "," + Fields(j, k + 1, ""), rest);
      assert "," + Fields(j, k + 1, rest) == "," + Fields(j, k + 1, "") + rest;
    }
  }

  lemma {:induction false} FieldAppends(f: Tagged<Json>, after: string, rest: string)
    ensures "\"" + Chars(f.tag, ":" + Print(f.value, after + rest)) ==
            "\"" + Chars(f.tag, ":" + Print(f.value, after)) + rest
    decreases f.value, 2, 0
  {
    PrintAppends(f.value, after + rest);
    PrintAppends(f.value, after);
    CharsAppend(f.tag, ":" + Print(f.value, after + rest));
    CharsAppend(f.tag, ":" + Print(f.value, after));
  }

  // ---- The form of the text ----

  /** Only printable ASCII characters. */
  predicate Ascii(s: string) {
    forall i | 0 <= i < |s| :: ' ' <= s[i] <= '~'
  }

  lemma UnitAscii(n: int)
    requires 0 <= n < 0x10000
    ensures Ascii(Unit(n))
  {
  }

  lemma EscapeAscii(c: char)
    ensures Ascii(Escape(c))
  {
    if ShortEscape(c).None? && !(' ' <= c <= '~') {
      if c as int < 0x10000 {
        UnitAscii(c as int);
      } else {
        UnitAscii(High(c));
        UnitAscii(Low(c));
      }
    }
  }

  lemma {:induction false} CharsAscii(s: string, rest: string)
    requires Ascii(rest)
    ensures Ascii(Chars(s, rest))
  {
    if s == "" {
    } else {
      EscapeAscii(s[0]);
      CharsAscii(s[1..], rest);
    }
  }

  lemma AsciiJoin(a: string, b: string)
    requires Ascii(a) && Ascii(b)
    ensures Ascii(a + b)
  {
  }

  lemma NumberAscii(s: string)
    requires AllNumberChars(s)
    ensures Ascii(s)
  {
  }

  /** The whole text is printable ASCII, whatever characters the value holds. */
  lemma {:induction false} PrintAscii(j: Json, rest: string)
    requires Ascii(rest)
    ensures Ascii(Print(j, rest))
    decreases j, 1, 0
  {
    match j
    case JNull => AsciiJoin("null", rest);
    case JBool(b) => AsciiJoin(if b then "true" else "false", rest);
    case JInt(n) =>
      DecimalBack(n);
      NumberAscii(Decimal(n));
      AsciiJoin(Decimal(n), rest);
    case JFloat(repr) =>
      NumberAscii(repr);
      AsciiJoin(repr, rest);
    case JStr(s) =>
      CharsAscii(s, rest);
      AsciiJoin("\"", Chars(s, rest));
    case JList(items) => ListAscii(j, rest);
    case JObj(fields) => ObjectAscii(j, rest);
  }

  lemma {:induction false} ListAscii(j: Json, rest: string)
    requires j.JList? && Ascii(rest)
    ensures Ascii(Print(j, rest))
    decreases j, 0, |j.items| + 1
  {
    if j.items == [] {
      AsciiJoin("]", rest);
      AsciiJoin("[", "]" + rest);
    } else {
      ItemsAscii(j, 0, rest);
      AsciiJoin("[", Items(j, 0, rest));
    }
  }

  lemma {:induction false} ObjectAscii(j: Json, rest: string)
    requires j.JObj? && Ascii(rest)
    ensures Ascii(Print(j, rest))
    decreases j, 0, |j.fields| + 1
  {
    if j.fields == [] {
      AsciiJoin("}", rest);
      AsciiJoin("{", "}" + rest);
    } else {
      FieldsAscii(j, 0, rest);
      AsciiJoin("{", Fields(j, 0, rest));
    }
  }

  lemma {:induction false} ItemsAscii(j: Json, k: nat, rest: string)
    requires j.JList? && k < |j.items| && Ascii(rest)
    ensures Ascii(Items(j, k, rest))
    decreases j, 0, |j.items| - k
  {
    if k == |j.items| - 1 {
      PrintAscii(j.items[k], "]" + rest);
    } else {
      ItemsAscii(j, k + 1, rest);
      PrintAscii(j.items[k], "," + Items(j, k + 1, rest));
    }
  }

  lemma {:induction false} FieldsAscii(j: Json, k: nat, rest: string)
    requires j.JObj? && k < |j.fields| && Ascii(rest)
    ensures Ascii(Fields(j, k, rest))
    decreases j, 0, |j.fields| - k
  {
    var f := j.fields[k];
    if k == |j.fields| - 1 {
      PrintAscii(f.value, "}" + rest);
      CharsAscii(f.tag, ":" + Print(f.value, "}" + rest));
    } else {
      FieldsAscii(j, k + 1, rest);
      var after := "," + Fields(j, k + 1, rest);
      PrintAscii(f.value, after);
      CharsAscii(f.tag, ":" + Print(f.value, after));
    }
  }

  /**
   How characters are written: seven of them as a backslash and a letter, the other printable ASCII ones as
   they are, and everything else as one or two \u escapes of six characters.
   */
  lemma EscapeForms(c: char)
    ensures c == '"' ==> Escape(c) == "\\\""
    ensures c == '\\' ==> Escape(c) == "\\\\"
    ensures c == '\n' ==> Escape(c) == "\\n"
    ensures c == '\r' ==> Escape(c) == "\\r"
    ensures c == '\t' ==> Escape(c) == "\\t"
    ensures c as int == 12 ==> Escape(c) == "\\f"
    ensures c as int == 8 ==> Escape(c) == "\\b"
    ensures ' ' <= c <= '~' && c != '"' && c != '\\' ==> Escape(c) == [c]
    ensures c > '~' ==> |Escape(c)| == if c as int < 0x10000 then 6 else 12
  {
  }

  /** Integers are written without leading zeros. */
  lemma {:induction false} NoLeadingZero(n: nat)
    ensures Digits(n) != "" && (Digits(n)[0] == '0' <==> n == 0)
    ensures n > 0 ==> Digits(n)[0] != '0'
  {
    if n < 10 {
    } else {
      NoLeadingZero(n / 10);
      assert Digits(n)[0] == Digits(n / 10)[0];
    }
  }
}
