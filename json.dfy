/**
 * The values that pass through the cache, and the two JavaScript built-ins the cache uses on
 * them: `JSON.stringify` (to write) and `JSON.parse` (to read). Numbers are exact integers here.
 */
module Json {
  import opened Wrappers
  import opened Text

  /**
   * A JavaScript value that `JSON.stringify` can write. An object is its list of members in
   * text order: duplicate keys are all kept, and integer-like keys are not moved first.
   */
  datatype Value =
    | Null
    | Bool(b: bool)
    | Num(n: int)
    | Str(s: string)
    | Arr(items: seq<Value>)
    | Obj(members: seq<Member>)

  datatype Member = Member(key: string, value: Value)

  /** JavaScript truthiness: `null`, `false`, `0` and `''` are falsy, every array and object is truthy. */
  predicate Truthy(v: Value) {
    match v
    case Null => false
    case Bool(b) => b
    case Num(n) => n != 0
    case Str(s) => s != []
    case Arr(_) => true
    case Obj(_) => true
  }

  // ---------------------------------------------------------------- JSON.stringify

  /** The lower-case hexadecimal digit for `d < 16`. */
  function HexDigit(d: nat): char
    requires d < 16
  {
    if d < 10 then DigitChar(d) else ('a' as int + d - 10) as char
  }

  /** How `JSON.stringify` writes one character inside a string literal. */
  function EscapeChar(c: char): string {
    if c == '"' then "\\\""
    else if c == '\\' then "\\\\"
    else if c == '\U{0008}' then "\\b"
    else if c == '\U{000C}' then "\\f"
    else if c == '\n' then "\\n"
    else if c == '\r' then "\\r"
    else if c == '\t' then "\\t"
    else if (c as int) < 0x20 then "\\u00" + [HexDigit(c as int / 16), HexDigit(c as int % 16)]
    else [c]
  }

  function Escape(s: string): string {
    if s == [] then [] else EscapeChar(s[0]) + Escape(s[1..])
  }

  function Quote(s: string): string {
    "\"" + Escape(s) + "\""
  }

  function StringifyNumber(n: int): string {
    if n < 0 then "-" + NatToString(-n) else NatToString(n)
  }

  /** `JSON.stringify(v)`: the compact text, with no white space between tokens. */
  function Stringify(v: Value): string {
    match v
    case Null => "null"
    case Bool(b) => if b then "true" else "false"
    case Num(n) => StringifyNumber(n)
    case Str(s) => Quote(s)
    case Arr(items) => "[" + StringifyItems(items) + "]"
    case Obj(members) => "{" + StringifyMembers(members) + "}"
  }

  function StringifyItems(items: seq<Value>): string {
    if items == [] then ""
    else if |items| == 1 then Stringify(items[0])
    else Stringify(items[0]) + "," + StringifyItems(items[1..])
  }

  function StringifyMember(m: Member): string {
    Quote(m.key) + ":" + Stringify(m.value)
  }

  function StringifyMembers(members: seq<Member>): string {
    if members == [] then ""
    else if |members| == 1 then StringifyMember(members[0])
    else StringifyMember(members[0]) + "," + StringifyMembers(members[1..])
  }

  // ---------------------------------------------------------------- JSON.parse

  /** What a parsing step read, and the text left after it. */
  datatype Parsed<T> = Parsed(value: T, rest: string)

  /** JSON's insignificant white space. */
  predicate IsJsonSpace(c: char) {
    c == ' ' || c == '\t' || c == '\n' || c == '\r'
  }

  function SkipSpace(s: string): (r: string)
    ensures |r| <= |s| && r == s[|s| - |r|..]
    ensures r == [] || !IsJsonSpace(r[0])
  {
    if s != [] && IsJsonSpace(s[0]) then SkipSpace(s[1..]) else s
  }

  predicate IsHex(c: char) {
    IsDigit(c) || 'a' <= c <= 'f' || 'A' <= c <= 'F'
  }

  function HexValue(c: char): (v: nat)
    requires IsHex(c)
    ensures v < 16
  {
    if IsDigit(c) then DigitValue(c)
    else if 'a' <= c <= 'f' then c as int - 'a' as int + 10
    else c as int - 'A' as int + 10
  }

  /**
   * The character a `\uXXXX` escape stands for. Every surrogate code unit fails, so a
   * surrogate pair written as two escapes fails too.
   */
  function UnicodeEscape(h: string): Option<char>
    requires |h| == 4
  {
    if !(IsHex(h[0]) && IsHex(h[1]) && IsHex(h[2]) && IsHex(h[3])) then None
    else
      var code := ((HexValue(h[0]) * 16 + HexValue(h[1])) * 16 + HexValue(h[2])) * 16 + HexValue(h[3]);
      if 0xD800 <= code <= 0xDFFF then None else Some(code as char)
  }

  /** The character denoted by the escape `\` followed by `e` (not `u`). */
  function SimpleEscape(e: char): Option<char> {
    if e == '"' then Some('"')
    else if e == '\\' then Some('\\')
    else if e == '/' then Some('/')
    else if e == 'b' then Some('\U{0008}')
    else if e == 'f' then Some('\U{000C}')
    else if e == 'n' then Some('\n')
    else if e == 'r' then Some('\r')
    else if e == 't' then Some('\t')
    else None
  }

  /** Reads the characters of a string literal up to and including its closing quote. */
  function ParseChars(s: string): (r: Option<Parsed<string>>)
    ensures r.Some? ==> |r.value.rest| < |s|
  {
    if s == [] then None
    else if s[0] == '"' then Some(Parsed([], s[1..]))
    else if (s[0] as int) < 0x20 then None
    else if s[0] != '\\' then
      match ParseChars(s[1..])
      case Some(Parsed(t, rest)) => Some(Parsed([s[0]] + t, rest))
      case None => None
    else if |s| < 2 then None
    else
      var decoded :=
        if s[1] == 'u' then (if |s| < 6 then None else UnicodeEscape(s[2..6]))
        else SimpleEscape(s[1]);
      var width := if s[1] == 'u' then 6 else 2;
      if decoded.None? then None
      else
        match ParseChars(s[width..])
        case Some(Parsed(t, rest)) => Some(Parsed([decoded.value] + t, rest))
        case None => None
  }

  /** Reads an integer numeral; a fraction or an exponent is not modelled and fails. */
  function ParseNumber(s: string): (r: Option<Parsed<Value>>)
    ensures r.Some? ==> |r.value.rest| < |s|
  {
    var neg := s != [] && s[0] == '-';
    var body := if neg then s[1..] else s;
    var k := DigitRun(body);
    if k == 0 then None
    else if body[0] == '0' && k > 1 then None
    else if k < |body| && (body[k] == '.' || body[k] == 'e' || body[k] == 'E') then None
    else
      var m := DigitsValue(body[..k]);
      Some(Parsed(Num(if neg then -(m as int) else m), body[k..]))
  }

  /** Reads a literal `word` standing for `v`. */
  function ParseLiteral(s: string, word: string, v: Value): (r: Option<Parsed<Value>>)
    requires |word| > 0
    ensures r.Some? ==> |r.value.rest| < |s|
  {
    if |word| <= |s| && s[..|word|] == word then Some(Parsed(v, s[|word|..])) else None
  }

  /** Reads one value that starts at the first character of `s`. */
  function ParseValue(s: string): (r: Option<Parsed<Value>>)
    ensures r.Some? ==> |r.value.rest| < |s|
    decreases |s|, 0
  {
    if s == [] then None
    else if s[0] == 'n' then ParseLiteral(s, "null", Null)
    else if s[0] == 't' then ParseLiteral(s, "true", Bool(true))
    else if s[0] == 'f' then ParseLiteral(s, "false", Bool(false))
    else if s[0] == '-' || IsDigit(s[0]) then ParseNumber(s)
    else if s[0] == '"' then
      match ParseChars(s[1..])
      case Some(Parsed(t, rest)) => Some(Parsed(Str(t), rest))
      case None => None
    else if s[0] == '[' then ParseArray(s[1..])
    else if s[0] == '{' then ParseObject(s[1..])
    else None
  }

  /** Reads a value with the white space around it. */
  function ParseElement(s: string): (r: Option<Parsed<Value>>)
    ensures r.Some? ==> |r.value.rest| < |s|
    decreases |s|, 1
  {
    match ParseValue(SkipSpace(s))
    case Some(Parsed(v, rest)) => Some(Parsed(v, SkipSpace(rest)))
    case None => None
  }

  /** Reads the contents of an array after its `[`. */
  function ParseArray(s: string): (r: Option<Parsed<Value>>)
    ensures r.Some? ==> |r.value.rest| < |s|
    decreases |s|, 3
  {
    var t := SkipSpace(s);
    if t != [] && t[0] == ']' then Some(Parsed(Arr([]), t[1..]))
    else
      match ParseItems(s)
      case Some(Parsed(items, rest)) => Some(Parsed(Arr(items), rest))
      case None => None
  }

  /** Reads one or more comma-separated elements and the closing `]`. */
  function ParseItems(s: string): (r: Option<Parsed<seq<Value>>>)
    ensures r.Some? ==> |r.value.rest| < |s|
    decreases |s|, 2
  {
    match ParseElement(s)
    case None => None
    case Some(Parsed(v, rest)) =>
      if rest != [] && rest[0] == ']' then Some(Parsed([v], rest[1..]))
      else if rest != [] && rest[0] == ',' then
        match ParseItems(rest[1..])
        case Some(Parsed(vs, rest')) => Some(Parsed([v] + vs, rest'))
        case None => None
      else None
  }

  /** Reads the contents of an object after its `{`. */
  function ParseObject(s: string): (r: Option<Parsed<Value>>)
    ensures r.Some? ==> |r.value.rest| < |s|
    decreases |s|, 4
  {
    var t := SkipSpace(s);
    if t != [] && t[0] == '}' then Some(Parsed(Obj([]), t[1..]))
    else
      match ParseMembers(s)
      case Some(Parsed(ms, rest)) => Some(Parsed(Obj(ms), rest))
      case None => None
  }

  /** Reads a member's quoted key and the colon after it. */
  function ParseKey(s: string): (r: Option<Parsed<string>>)
    ensures r.Some? ==> |r.value.rest| < |s|
  {
    var t := SkipSpace(s);
    if t == [] || t[0] != '"' then None
    else
      match ParseChars(t[1..])
      case None => None
      case Some(Parsed(key, afterKey)) =>
        var u := SkipSpace(afterKey);
        if u == [] || u[0] != ':' then None else Some(Parsed(key, u[1..]))
  }

  /** Reads one `"key": element` member. */
  function ParseMember(s: string): (r: Option<Parsed<Member>>)
    ensures r.Some? ==> |r.value.rest| < |s|
    decreases |s|, 2
  {
    match ParseKey(s)
    case None => None
    case Some(Parsed(key, afterColon)) =>
      match ParseElement(afterColon)
      case Some(Parsed(v, rest)) => Some(Parsed(Member(key, v), rest))
      case None => None
  }

  /** Reads one or more comma-separated members and the closing `}`. */
  function ParseMembers(s: string): (r: Option<Parsed<seq<Member>>>)
    ensures r.Some? ==> |r.value.rest| < |s|
    decreases |s|, 3
  {
    match ParseMember(s)
    case None => None
    case Some(Parsed(m, rest)) =>
      if rest != [] && rest[0] == '}' then Some(Parsed([m], rest[1..]))
      else if rest != [] && rest[0] == ',' then
        match ParseMembers(rest[1..])
        case Some(Parsed(ms, rest')) => Some(Parsed([m] + ms, rest'))
        case None => None
      else None
  }

  /** `JSON.parse(text)`: `None` where JavaScript throws a `SyntaxError`. */
  function Parse(text: string): Option<Value> {
    match ParseElement(text)
    case Some(Parsed(v, rest)) => if rest == [] then Some(v) else None
    case None => None
  }

  // ---------------------------------------------------------------- round trip

  lemma HeadTail<T>(s: seq<T>)
    requires s != []
    ensures [s[0]] + s[1..] == s
  {
  }

  lemma Assoc(a: string, b: string, c: string)
    ensures a + b + c == a + (b + c)
  {
  }

  /** What may follow a value inside a document: nothing, or the delimiter after an element. */
  predicate Delimits(rest: string) {
    rest == [] || rest[0] == ',' || rest[0] == ']' || rest[0] == '}'
  }

  lemma HexDigitValue(d: nat)
    requires d < 16
    ensures IsHex(HexDigit(d)) && HexValue(HexDigit(d)) == d
  {
  }

  /** Every character `JSON.stringify` escapes is read back by the string parser. */
  lemma ParseEscapedChar(c: char, w: string)
    ensures ParseChars(EscapeChar(c) + w) ==
      match ParseChars(w)
      case Some(Parsed(t, rest)) => Some(Parsed([c] + t, rest))
      case None => None
  {
    if c == '"' || c == '\\' || c == '\U{0008}' || c == '\U{000C}' || c == '\n' || c == '\r' || c == '\t' {
      ParseShortEscape(c, w);
    } else if (c as int) < 0x20 {
      ParseUnicodeEscape(c, w);
    } else {
      assert (EscapeChar(c) + w)[1..] == w;
    }
  }

  lemma ParseShortEscape(c: char, w: string)
    requires c == '"' || c == '\\' || c == '\U{0008}' || c == '\U{000C}' || c == '\n' || c == '\r' || c == '\t'
    ensures ParseChars(EscapeChar(c) + w) ==
      match ParseChars(w)
      case Some(Parsed(t, rest)) => Some(Parsed([c] + t, rest))
      case None => None
  {
    var text := EscapeChar(c) + w;
    assert text[2..] == w;
  }

  lemma ParseUnicodeEscape(c: char, w: string)
    requires (c as int) < 0x20
    requires !(c == '\U{0008}' || c == '\U{000C}' || c == '\n' || c == '\r' || c == '\t')
    ensures ParseChars(EscapeChar(c) + w) ==
      match ParseChars(w)
      case Some(Parsed(t, rest)) => Some(Parsed([c] + t, rest))
      case None => None
  {
    var text := EscapeChar(c) + w;
    var hi, lo := c as int / 16, c as int % 16;
    HexDigitValue(hi);
    HexDigitValue(lo);
    assert text[2..6] == ['0', '0', HexDigit(hi), HexDigit(lo)];
    assert text[6..] == w;
  }

  /** The string parser reads back an escaped string and stops after its closing quote. */
  lemma {:induction false} ParseCharsEscape(s: string, rest: string)
    ensures ParseChars(Escape(s) + "\"" + rest) == Some(Parsed(s, rest))
    decreases |s|
  {
    if s == [] {
      assert ("\"" + rest)[1..] == rest;
    } else {
      ParseCharsEscape(s[1..], rest);
      EscapeText(s, rest);
      ParseEscapedChar(s[0], Escape(s[1..]) + "\"" + rest);
      HeadTail(s);
    }
  }

  /** The escaped text of a non-empty string: its first character escaped, then the rest. */
  lemma EscapeText(s: string, rest: string)
    requires s != []
    ensures Escape(s) + "\"" + rest == EscapeChar(s[0]) + (Escape(s[1..]) + "\"" + rest)
  {
    var c, t := EscapeChar(s[0]), Escape(s[1..]);
    Assoc(c + t, "\"", rest);
    Assoc(c, t, "\"" + rest);
    Assoc(t, "\"", rest);
  }

  lemma {:induction false} DigitRunPrefix(d: string, rest: string)
    requires forall i :: 0 <= i < |d| ==> IsDigit(d[i])
    requires rest == [] || !IsDigit(rest[0])
    ensures DigitRun(d + rest) == |d|
    decreases |d|
  {
    if d != [] {
      assert (d + rest)[1..] == d[1..] + rest;
      DigitRunPrefix(d[1..], rest);
    } else {
      assert d + rest == rest;
    }
  }

  /** The number parser reads an unsigned numeral up to the delimiter after it. */
  lemma ParseDigits(s: string, d: string, rest: string)
    requires s == d + rest && |d| > 0
    requires forall i :: 0 <= i < |d| ==> IsDigit(d[i])
    requires d[0] == '0' ==> |d| == 1
    requires Delimits(rest)
    ensures ParseNumber(s) == Some(Parsed(Num(DigitsValue(d)), rest))
  {
    DigitRunPrefix(d, rest);
    assert s[..|d|] == d;
    assert s[|d|..] == rest;
  }

  /** The number parser reads a minus sign followed by an unsigned numeral. */
  lemma ParseNegative(s: string, body: string, m: nat, rest: string)
    requires s == "-" + body && body != [] && IsDigit(body[0])
    requires ParseNumber(body) == Some(Parsed(Num(m), rest))
    ensures ParseNumber(s) == Some(Parsed(Num(-(m as int)), rest))
  {
    assert s[0] == '-' && s[1..] == body;
  }

  lemma ParseNumberStringify(n: int, rest: string)
    requires Delimits(rest)
    ensures ParseNumber(StringifyNumber(n) + rest) == Some(Parsed(Num(n), rest))
  {
    if n < 0 {
      ParseNumberNegative(n, rest);
    } else {
      ParseNumberNat(n, rest);
    }
  }

  lemma ParseNumberNat(m: nat, rest: string)
    requires Delimits(rest)
    ensures ParseNumber(NatToString(m) + rest) == Some(Parsed(Num(m), rest))
  {
    NatToStringValue(m);
    NatToStringDigits(m);
    ParseDigits(NatToString(m) + rest, NatToString(m), rest);
  }

  /** The text of a negative number: a minus sign, then a numeral that starts with a digit. */
  lemma NegativeText(n: int, rest: string)
    requires n < 0
    ensures StringifyNumber(n) + rest == "-" + (NatToString(-n) + rest)
    ensures IsDigit((NatToString(-n) + rest)[0])
  {
    var d := NatToString(-n);
    NatToStringDigits(-n);
    Assoc("-", d, rest);
    assert (d + rest)[0] == d[0];
  }

  lemma ParseNumberNegative(n: int, rest: string)
    requires n < 0 && Delimits(rest)
    ensures ParseNumber(StringifyNumber(n) + rest) == Some(Parsed(Num(n), rest))
  {
    var d := NatToString(-n);
    ParseNumberNat(-n, rest);
    NegativeText(n, rest);
    ParseNegative(StringifyNumber(n) + rest, d + rest, -n, rest);
  }

  lemma ParseLiteralHit(word: string, rest: string, v: Value)
    requires |word| > 0
    ensures ParseLiteral(word + rest, word, v) == Some(Parsed(v, rest))
  {
    assert (word + rest)[..|word|] == word;
    assert (word + rest)[|word|..] == rest;
  }

  /** Every value's text starts with a character that is not white space. */
  lemma StringifyStart(v: Value)
    ensures |Stringify(v)| > 0 && !IsJsonSpace(Stringify(v)[0]) && Stringify(v)[0] != ']'
  {
    if v.Num? {
      var m: nat := if v.n < 0 then -v.n else v.n;
      NatToStringDigits(m);
    }
  }

  /** The value parser reads back the text of any value followed by a delimiter. */
  lemma {:induction false} ParseValueStringify(v: Value, rest: string)
    requires Delimits(rest)
    ensures ParseValue(Stringify(v) + rest) == Some(Parsed(v, rest))
    decreases v, 1
  {
    match v
    case Null => ParseValueLiteral(v, rest);
    case Bool(_) => ParseValueLiteral(v, rest);
    case Num(n) => ParseValueNumber(n, rest);
    case Str(s) => ParseValueStr(s, rest);
    case Arr(items) => ParseValueArr(items, rest);
    case Obj(members) => ParseValueObj(members, rest);
  }

  lemma {:induction false} ParseValueArr(items: seq<Value>, rest: string)
    requires Delimits(rest)
    ensures ParseValue(Stringify(Arr(items)) + rest) == Some(Parsed(Arr(items), rest))
    decreases items, 2
  {
      ParseArrayStringify(items, rest);
      ArrText(items, rest);
      ParseValueArray(Stringify(Arr(items)) + rest, StringifyItems(items) + "]" + rest);
  }

  lemma {:induction false} ParseValueObj(members: seq<Member>, rest: string)
    requires Delimits(rest)
    ensures ParseValue(Stringify(Obj(members)) + rest) == Some(Parsed(Obj(members), rest))
    decreases members, 2
  {
      ParseObjectStringify(members, rest);
      ObjText(members, rest);
      ParseValueObject(Stringify(Obj(members)) + rest, StringifyMembers(members) + "}" + rest);
  }

  /** The text of an array: a bracket, its elements and a closing bracket. */
  lemma ArrText(items: seq<Value>, rest: string)
    ensures Stringify(Arr(items)) + rest == "[" + (StringifyItems(items) + "]" + rest)
  {
    var t := StringifyItems(items);
    Assoc("[" + t, "]", rest);
    Assoc("[", t, "]" + rest);
    Assoc(t, "]", rest);
  }

  /** The text of an object: a brace, its members and a closing brace. */
  lemma ObjText(members: seq<Member>, rest: string)
    ensures Stringify(Obj(members)) + rest == "{" + (StringifyMembers(members) + "}" + rest)
  {
    var t := StringifyMembers(members);
    Assoc("{" + t, "}", rest);
    Assoc("{", t, "}" + rest);
    Assoc(t, "}", rest);
  }

  lemma ParseValueLiteral(v: Value, rest: string)
    requires v.Null? || v.Bool?
    ensures ParseValue(Stringify(v) + rest) == Some(Parsed(v, rest))
  {
    var word := Stringify(v);
    ParseLiteralHit(word, rest, v);
    assert (word + rest)[0] == word[0];
  }

  lemma ParseValueNumber(n: int, rest: string)
    requires Delimits(rest)
    ensures ParseValue(Stringify(Num(n)) + rest) == Some(Parsed(Num(n), rest))
  {
    var m: nat := if n < 0 then -n else n;
    NatToStringDigits(m);
    ParseNumberStringify(n, rest);
  }

  lemma ParseValueStr(s: string, rest: string)
    requires Delimits(rest)
    ensures ParseValue(Stringify(Str(s)) + rest) == Some(Parsed(Str(s), rest))
  {
    var e := Escape(s);
    var body := e + "\"" + rest;
    ParseCharsEscape(s, rest);
    assert Stringify(Str(s)) + rest == "\"" + body by {
      Assoc("\"" + e, "\"", rest);
      Assoc("\"", e, "\"" + rest);
      Assoc(e, "\"", rest);
    }
    ParseValueString(Stringify(Str(s)) + rest, body);
  }

  lemma ParseValueString(text: string, body: string)
    requires text == "\"" + body
    ensures ParseValue(text) ==
      match ParseChars(body)
      case Some(Parsed(t, rest)) => Some(Parsed(Str(t), rest))
      case None => None
  {
    assert text[1..] == body;
  }

  lemma ParseValueArray(text: string, body: string)
    requires text == "[" + body
    ensures ParseValue(text) == ParseArray(body)
  {
    assert text[1..] == body;
  }

  lemma ParseValueObject(text: string, body: string)
    requires text == "{" + body
    ensures ParseValue(text) == ParseObject(body)
  {
    assert text[1..] == body;
  }

  lemma {:induction false} ParseArrayStringify(items: seq<Value>, rest: string)
    requires Delimits(rest)
    ensures ParseArray(StringifyItems(items) + "]" + rest) == Some(Parsed(Arr(items), rest))
    decreases items, 1
  {
    var body := StringifyItems(items) + "]" + rest;
    if items == [] {
      assert body == "]" + rest;
      assert body[1..] == rest;
    } else {
      StringifyItemsStart(items);
      ParseItemsStringify(items, rest);
    }
  }

  lemma {:induction false} ParseObjectStringify(members: seq<Member>, rest: string)
    requires Delimits(rest)
    ensures ParseObject(StringifyMembers(members) + "}" + rest) == Some(Parsed(Obj(members), rest))
    decreases members, 1
  {
    var body := StringifyMembers(members) + "}" + rest;
    if members == [] {
      assert body == "}" + rest;
      assert body[1..] == rest;
    } else {
      StringifyMembersStart(members);
      ParseMembersStringify(members, rest);
    }
  }

  lemma StringifyMembersStart(members: seq<Member>)
    requires members != []
    ensures |StringifyMembers(members)| > 0 && StringifyMembers(members)[0] == '"'
  {
  }

  lemma {:induction false} ParseElementStringify(v: Value, rest: string)
    requires Delimits(rest)
    ensures ParseElement(Stringify(v) + rest) == Some(Parsed(v, rest))
    decreases v, 2
  {
    ParseValueStringify(v, rest);
    ParseElementStep(v, rest);
  }

  /** A value that starts its text needs no white space skipped, and neither does a delimiter. */
  lemma ParseElementStep(v: Value, rest: string)
    requires Delimits(rest)
    requires ParseValue(Stringify(v) + rest) == Some(Parsed(v, rest))
    ensures ParseElement(Stringify(v) + rest) == Some(Parsed(v, rest))
  {
    var s := Stringify(v) + rest;
    StringifyStart(v);
    assert s[0] == Stringify(v)[0];
    ParseElementUnspaced(s, v, rest);
  }

  /** Text that starts and ends without white space is read as the value alone. */
  lemma ParseElementUnspaced(s: string, v: Value, rest: string)
    requires s != [] && !IsJsonSpace(s[0])
    requires rest == [] || !IsJsonSpace(rest[0])
    requires ParseValue(s) == Some(Parsed(v, rest))
    ensures ParseElement(s) == Some(Parsed(v, rest))
  {
    assert SkipSpace(s) == s;
    assert SkipSpace(rest) == rest;
  }

  lemma StringifyItemsStart(items: seq<Value>)
    requires items != []
    ensures |StringifyItems(items)| > 0 && StringifyItems(items)[0] != ']'
    ensures !IsJsonSpace(StringifyItems(items)[0])
  {
    StringifyStart(items[0]);
    if |items| > 1 {
      assert StringifyItems(items)[0] == Stringify(items[0])[0];
    }
  }

  /** One step of the element-list parser: an element followed by the closing bracket. */
  lemma ParseItemsLast(s: string, v: Value, after: string)
    requires ParseElement(s) == Some(Parsed(v, after))
    requires after != [] && after[0] == ']'
    ensures ParseItems(s) == Some(Parsed([v], after[1..]))
  {
  }

  /** One step of the element-list parser: an element followed by a comma and more elements. */
  lemma ParseItemsNext(s: string, v: Value, after: string, vs: seq<Value>, rest: string)
    requires ParseElement(s) == Some(Parsed(v, after))
    requires after != [] && after[0] == ','
    requires ParseItems(after[1..]) == Some(Parsed(vs, rest))
    ensures ParseItems(s) == Some(Parsed([v] + vs, rest))
  {
  }

  /** The text of a list of one element and what follows it. */
  lemma ItemsTextOne(items: seq<Value>, rest: string)
    requires |items| == 1
    ensures StringifyItems(items) + "]" + rest == Stringify(items[0]) + ("]" + rest)
  {
  }

  /** The text of a list of several elements: its head, a comma and the text of its tail. */
  lemma ItemsTextMore(items: seq<Value>, rest: string)
    requires |items| > 1
    ensures StringifyItems(items) + "]" + rest
         == Stringify(items[0]) + ("," + (StringifyItems(items[1..]) + "]" + rest))
  {
    var h, t := Stringify(items[0]), StringifyItems(items[1..]);
    Assoc(h + "," + t, "]", rest);
    Assoc(h + ",", t, "]" + rest);
    Assoc(h, ",", t + ("]" + rest));
    Assoc(t, "]", rest);
  }

  /** The element-list parser reads back the text of a non-empty list and its closing bracket. */
  lemma {:induction false} ParseItemsStringify(items: seq<Value>, rest: string)
    requires items != []
    ensures ParseItems(StringifyItems(items) + "]" + rest) == Some(Parsed(items, rest))
    decreases items, 0
  {
    if |items| == 1 {
      ParseElementStringify(items[0], "]" + rest);
      ParseItemsOneStep(items, rest);
    } else {
      var more := StringifyItems(items[1..]) + "]" + rest;
      ParseElementStringify(items[0], "," + more);
      ParseItemsStringify(items[1..], rest);
      assert ("," + more)[1..] == more;
      ParseItemsNext(Stringify(items[0]) + ("," + more), items[0], "," + more, items[1..], rest);
      ItemsTextMore(items, rest);
      HeadTail(items);
    }
  }

  lemma ParseItemsOneStep(items: seq<Value>, rest: string)
    requires |items| == 1
    requires ParseElement(Stringify(items[0]) + ("]" + rest)) == Some(Parsed(items[0], "]" + rest))
    ensures ParseItems(StringifyItems(items) + "]" + rest) == Some(Parsed(items, rest))
  {
    var head := items[0];
    ItemsTextOne(items, rest);
    assert ("]" + rest)[1..] == rest;
    ParseItemsLast(Stringify(head) + ("]" + rest), head, "]" + rest);
    assert [head] == items;
  }

  /** The text of a member: a quote, the escaped key, a quote, a colon and the element. */
  lemma MemberText(key: string, s: string)
    ensures Quote(key) + ":" + s == "\"" + (Escape(key) + "\"" + (":" + s))
  {
    Assoc("\"" + Escape(key), "\"", ":");
    Assoc("\"" + Escape(key) + "\"", ":", s);
    Assoc("\"" + Escape(key), "\"", ":" + s);
    Assoc("\"", Escape(key), "\"" + (":" + s));
    Assoc(Escape(key), "\"", ":" + s);
  }

  /** The key parser reads a quoted key and a colon. */
  lemma ParseKeyHit(s: string, key: string, afterKey: string)
    requires s != [] && s[0] == '"'
    requires ParseChars(s[1..]) == Some(Parsed(key, afterKey))
    requires afterKey != [] && afterKey[0] == ':'
    ensures ParseKey(s) == Some(Parsed(key, afterKey[1..]))
  {
    assert SkipSpace(s) == s;
    assert SkipSpace(afterKey) == afterKey;
  }

  /** The member parser reads a key, a colon and an element. */
  lemma ParseMemberHit(key: string, s: string, v: Value, rest: string)
    requires ParseElement(s) == Some(Parsed(v, rest))
    ensures ParseMember(Quote(key) + ":" + s) == Some(Parsed(Member(key, v), rest))
  {
    var text := Quote(key) + ":" + s;
    var afterKey := ":" + s;
    MemberText(key, s);
    ParseCharsEscape(key, afterKey);
    assert afterKey[1..] == s;
    ParseKeyHit(text, key, afterKey);
  }

  lemma {:induction false} ParseMemberStringify(m: Member, rest: string)
    requires Delimits(rest)
    ensures ParseMember(StringifyMember(m) + rest) == Some(Parsed(m, rest))
    decreases m, 0
  {
    ParseElementStringify(m.value, rest);
    ParseMemberHit(m.key, Stringify(m.value) + rest, m.value, rest);
    Assoc(Quote(m.key) + ":", Stringify(m.value), rest);
  }

  /** One step of the member-list parser: a member followed by the closing brace. */
  lemma ParseMembersLast(s: string, m: Member, after: string)
    requires ParseMember(s) == Some(Parsed(m, after))
    requires after != [] && after[0] == '}'
    ensures ParseMembers(s) == Some(Parsed([m], after[1..]))
  {
  }

  /** One step of the member-list parser: a member followed by a comma and more members. */
  lemma ParseMembersNext(s: string, m: Member, after: string, ms: seq<Member>, rest: string)
    requires ParseMember(s) == Some(Parsed(m, after))
    requires after != [] && after[0] == ','
    requires ParseMembers(after[1..]) == Some(Parsed(ms, rest))
    ensures ParseMembers(s) == Some(Parsed([m] + ms, rest))
  {
  }

  /** The text of a list of one member and what follows it. */
  lemma MembersTextOne(members: seq<Member>, rest: string)
    requires |members| == 1
    ensures StringifyMembers(members) + "}" + rest == StringifyMember(members[0]) + ("}" + rest)
  {
  }

  /** The text of a list of several members: its head, a comma and the text of its tail. */
  lemma MembersTextMore(members: seq<Member>, rest: string)
    requires |members| > 1
    ensures StringifyMembers(members) + "}" + rest
         == StringifyMember(members[0]) + ("," + (StringifyMembers(members[1..]) + "}" + rest))
  {
    var h, t := StringifyMember(members[0]), StringifyMembers(members[1..]);
    Assoc(h + "," + t, "}", rest);
    Assoc(h + ",", t, "}" + rest);
    Assoc(h, ",", t + ("}" + rest));
    Assoc(t, "}", rest);
  }

  /** The member-list parser reads back the text of a non-empty member list and its closing brace. */
  lemma {:induction false} ParseMembersStringify(members: seq<Member>, rest: string)
    requires members != []
    ensures ParseMembers(StringifyMembers(members) + "}" + rest) == Some(Parsed(members, rest))
    decreases members, 0
  {
    if |members| == 1 {
      ParseMemberStringify(members[0], "}" + rest);
      ParseMembersOneStep(members, rest);
    } else {
      var more := StringifyMembers(members[1..]) + "}" + rest;
      ParseMemberStringify(members[0], "," + more);
      ParseMembersStringify(members[1..], rest);
      assert ("," + more)[1..] == more;
      ParseMembersNext(StringifyMember(members[0]) + ("," + more), members[0], "," + more, members[1..], rest);
      MembersTextMore(members, rest);
      HeadTail(members);
    }
  }

  lemma ParseMembersOneStep(members: seq<Member>, rest: string)
    requires |members| == 1
    requires ParseMember(StringifyMember(members[0]) + ("}" + rest)) == Some(Parsed(members[0], "}" + rest))
    ensures ParseMembers(StringifyMembers(members) + "}" + rest) == Some(Parsed(members, rest))
  {
    var head := members[0];
    MembersTextOne(members, rest);
    assert ("}" + rest)[1..] == rest;
    ParseMembersLast(StringifyMember(head) + ("}" + rest), head, "}" + rest);
    assert [head] == members;
  }

  /** `JSON.parse(JSON.stringify(v))` gives `v` back. */
  lemma ParseStringify(v: Value)
    ensures Parse(Stringify(v)) == Some(v)
  {
    ParseElementStringify(v, []);
    assert Stringify(v) + [] == Stringify(v);
  }
}
