/**
 * JSON text: `JSON.stringify` (no indentation) and `JSON.parse`. The cache stores
 * the text of a body and replays what parsing gives back; an uploaded file is
 * parsed before its chapters are saved.
 */
module JsonText {
  import opened Wrappers
  import opened Json
  import Decimal

  // ---------------------------------------------------------------- writing

  function HexDigit(d: int): char
    requires 0 <= d < 16
  {
    if d < 10 then (d + '0' as int) as char else (d - 10 + 'a' as int) as char
  }

  /** How `JSON.stringify` writes one character inside a string literal. */
  function EscapeChar(c: char): string {
    if c == '"' then "\\\""
    else if c == '\\' then "\\\\"
    else if c as int == 8 then "\\b"
    else if c as int == 12 then "\\f"
    else if c == '\n' then "\\n"
    else if c == '\r' then "\\r"
    else if c == '\t' then "\\t"
    else if c as int < 32 then "\\u00" + [HexDigit(c as int / 16), HexDigit(c as int % 16)]
    else [c]
  }

  function Escape(s: string): string {
    if s == [] then [] else EscapeChar(s[0]) + Escape(s[1..])
  }

  function Quote(s: string): string {
    "\"" + Escape(s) + "\""
  }

  function Stringify(j: Json): string {
    match j
    case JNull => "null"
    case JBool(b) => if b then "true" else "false"
    case JNum(n) => Decimal.Show(n)
    case JStr(s) => Quote(s)
    case JArr(items) => "[" + Items(items) + "]"
    case JObj(fs) => "{" + Members(fs) + "}"
  }

  function Items(items: seq<Json>): string {
    if items == [] then ""
    else if |items| == 1 then Stringify(items[0])
    else Stringify(items[0]) + "," + Items(items[1..])
  }

  function Member(f: Field): string {
    Quote(f.key) + ":" + Stringify(f.value)
  }

  function Members(fs: seq<Field>): string {
    if fs == [] then ""
    else if |fs| == 1 then Member(fs[0])
    else Member(fs[0]) + "," + Members(fs[1..])
  }

  // ---------------------------------------------------------------- reading

  datatype Parsed<T> = Parsed(value: T, rest: string)

  predicate IsWs(c: char) {
    c == ' ' || c == '\t' || c == '\n' || c == '\r'
  }

  function SkipWs(s: string): (r: string)
    ensures |r| <= |s|
  {
    if s != [] && IsWs(s[0]) then SkipWs(s[1..]) else s
  }

  function HexValue(c: char): Option<int> {
    if '0' <= c <= '9' then Some(c as int - '0' as int)
    else if 'a' <= c <= 'f' then Some(c as int - 'a' as int + 10)
    else if 'A' <= c <= 'F' then Some(c as int - 'A' as int + 10)
    else None
  }

  /** The code unit written as four hex digits after `\u`. */
  function Hex4(s: string): Option<int>
    requires |s| >= 4
  {
    match (HexValue(s[0]), HexValue(s[1]), HexValue(s[2]), HexValue(s[3]))
    case (Some(a), Some(b), Some(c), Some(d)) => Some(((a * 16 + b) * 16 + c) * 16 + d)
    case _ => None
  }

  /** An escape sequence, `s` starting just after the backslash. */
  function ParseEscape(s: string): (r: Option<Parsed<char>>)
    ensures r.Some? ==> |r.value.rest| < |s|
  {
    if s == [] then None
    else if s[0] == '"' then Some(Parsed('"', s[1..]))
    else if s[0] == '\\' then Some(Parsed('\\', s[1..]))
    else if s[0] == '/' then Some(Parsed('/', s[1..]))
    else if s[0] == 'b' then Some(Parsed(8 as char, s[1..]))
    else if s[0] == 'f' then Some(Parsed(12 as char, s[1..]))
    else if s[0] == 'n' then Some(Parsed('\n', s[1..]))
    else if s[0] == 'r' then Some(Parsed('\r', s[1..]))
    else if s[0] == 't' then Some(Parsed('\t', s[1..]))
    else if s[0] == 'u' && |s| >= 5 then
      match Hex4(s[1..5])
      case Some(v) =>
        if 0 <= v < 0xD800 || 0xE000 <= v < 0x1_0000 then Some(Parsed(v as char, s[5..]))
        else if 0xD800 <= v < 0xDC00 then ParseLowSurrogate(v, s[5..])
        else None
      case None => None
    else None
  }

  /**
   * The `\uDC00`-`\uDFFF` escape that must follow a high surrogate escape; the
   * pair stands for one character beyond the Basic Multilingual Plane. A high
   * surrogate on its own is refused, since a Dafny character is a scalar value.
   */
  function ParseLowSurrogate(high: int, s: string): (r: Option<Parsed<char>>)
    requires 0xD800 <= high < 0xDC00
    ensures r.Some? ==> |r.value.rest| < |s|
    ensures r.Some? ==> 0x1_0000 <= r.value.value as int < 0x11_0000
  {
    if |s| >= 6 && s[0] == '\\' && s[1] == 'u' then
      match Hex4(s[2..6])
      case Some(w) =>
        if 0xDC00 <= w < 0xE000 then Some(Parsed((0x1_0000 + (high - 0xD800) * 0x400 + (w - 0xDC00)) as char, s[6..]))
        else None
      case None => None
    else None
  }

  /** One character of a string literal; the closing quote and raw control characters are not one. */
  function ParseChar(s: string): (r: Option<Parsed<char>>)
    ensures r.Some? ==> |r.value.rest| < |s|
  {
    if s == [] || s[0] == '"' then None
    else if s[0] == '\\' then ParseEscape(s[1..])
    else if s[0] as int < 32 then None
    else Some(Parsed(s[0], s[1..]))
  }

  /** The contents of a string literal through its closing quote, `s` starting after the opening one. */
  function ParseChars(s: string): (r: Option<Parsed<string>>)
    ensures r.Some? ==> |r.value.rest| < |s|
    decreases |s|
  {
    if s == [] then None
    else if s[0] == '"' then Some(Parsed([], s[1..]))
    else
      match ParseChar(s)
      case None => None
      case Some(c) =>
        match ParseChars(c.rest)
        case None => None
        case Some(cs) => Some(Parsed([c.value] + cs.value, cs.rest))
  }

  /** The length of the run of digits that `s` starts with. */
  function DigitCount(s: string): (n: nat)
    ensures n <= |s|
    ensures Decimal.AllDigits(s[..n])
  {
    if s != [] && Decimal.IsDigit(s[0]) then
      var n := 1 + DigitCount(s[1..]);
      assert s[..n] == [s[0]] + s[1..][..n - 1];
      n
    else 0
  }

  /** A number: an optional minus and digits without leading zeros (fractions and exponents are not read). */
  function ParseNumber(t: string): (r: Option<Parsed<Json>>)
    requires t != []
    ensures r.Some? ==> |r.value.rest| < |t|
  {
    var sign := if t[0] == '-' then 1 else 0;
    var n := sign + DigitCount(t[sign..]);
    match Decimal.Read(t[..n])
    case Some(v) => Some(Parsed(JNum(v), t[n..]))
    case None => None
  }

  function ParseLiteral(t: string, word: string, v: Json): (r: Option<Parsed<Json>>)
    requires word != []
    ensures r.Some? ==> |r.value.rest| < |t|
  {
    if |word| <= |t| && t[..|word|] == word then Some(Parsed(v, t[|word|..])) else None
  }

  /** A value with the white space around it. */
  function ParseValue(s: string): (r: Option<Parsed<Json>>)
    ensures r.Some? ==> |r.value.rest| < |s|
    decreases |s|, 1
  {
    match ParseBare(SkipWs(s))
    case None => None
    case Some(p) => Some(Parsed(p.value, SkipWs(p.rest)))
  }

  /** A value that starts right at the first character of `t`. */
  function ParseBare(t: string): (r: Option<Parsed<Json>>)
    ensures r.Some? ==> |r.value.rest| < |t|
    decreases |t|, 0
  {
    if t == [] then None
    else if t[0] == 'n' then ParseLiteral(t, "null", JNull)
    else if t[0] == 't' then ParseLiteral(t, "true", JBool(true))
    else if t[0] == 'f' then ParseLiteral(t, "false", JBool(false))
    else if t[0] == '"' then
      match ParseChars(t[1..])
      case None => None
      case Some(p) => Some(Parsed(JStr(p.value), p.rest))
    else if t[0] == '[' then ParseArray(t[1..])
    else if t[0] == '{' then ParseObject(t[1..])
    else if t[0] == '-' || Decimal.IsDigit(t[0]) then ParseNumber(t)
    else None
  }

  /** An array, `s` starting after `[`. */
  function ParseArray(s: string): (r: Option<Parsed<Json>>)
    ensures r.Some? ==> |r.value.rest| < |s|
    decreases |s|, 3
  {
    var u := SkipWs(s);
    if u != [] && u[0] == ']' then Some(Parsed(JArr([]), u[1..]))
    else
      match ParseItems(s)
      case None => None
      case Some(p) => Some(Parsed(JArr(p.value), p.rest))
  }

  /** The elements of a non-empty array through its `]`. */
  function ParseItems(s: string): (r: Option<Parsed<seq<Json>>>)
    ensures r.Some? ==> |r.value.rest| < |s|
    decreases |s|, 2
  {
    match ParseValue(s)
    case None => None
    case Some(p) =>
      if p.rest != [] && p.rest[0] == ',' then
        match ParseItems(p.rest[1..])
        case None => None
        case Some(q) => Some(Parsed([p.value] + q.value, q.rest))
      else if p.rest != [] && p.rest[0] == ']' then Some(Parsed([p.value], p.rest[1..]))
      else None
  }

  /** An object, `s` starting after `{`; a repeated key keeps its first place and its last value. */
  function ParseObject(s: string): (r: Option<Parsed<Json>>)
    ensures r.Some? ==> |r.value.rest| < |s|
    decreases |s|, 3
  {
    var u := SkipWs(s);
    if u != [] && u[0] == '}' then Some(Parsed(JObj([]), u[1..]))
    else
      match ParseMembers(s)
      case None => None
      case Some(p) => Some(Parsed(JObj(Collect([], p.value)), p.rest))
  }

  /** The members of a non-empty object through its `}`, in text order. */
  function ParseMembers(s: string): (r: Option<Parsed<seq<Field>>>)
    ensures r.Some? ==> |r.value.rest| < |s|
    decreases |s|, 2
  {
    var t := SkipWs(s);
    if t == [] || t[0] != '"' then None
    else
      match ParseChars(t[1..])
      case None => None
      case Some(k) =>
        var u := SkipWs(k.rest);
        if u == [] || u[0] != ':' then None
        else
          match ParseValue(u[1..])
          case None => None
          case Some(p) =>
            var f := Field(k.value, p.value);
            if p.rest != [] && p.rest[0] == ',' then
              match ParseMembers(p.rest[1..])
              case None => None
              case Some(q) => Some(Parsed([f] + q.value, q.rest))
            else if p.rest != [] && p.rest[0] == '}' then Some(Parsed([f], p.rest[1..]))
            else None
  }

  /** `JSON.parse`: one value and nothing but white space after it; None where it throws. */
  function Parse(s: string): Option<Json> {
    match ParseValue(s)
    case Some(p) => if p.rest == [] then Some(p.value) else None
    case None => None
  }

  // ---------------------------------------------------------------- round trip

  /** What can follow a value inside the text that Stringify writes. */
  predicate Follows(rest: string) {
    rest == [] || rest[0] == ',' || rest[0] == ']' || rest[0] == '}'
  }

  lemma HexRoundTrip(d: int)
    requires 0 <= d < 16
    ensures HexValue(HexDigit(d)) == Some(d)
  {
  }

  /** Every character comes back from its escaped form. */
  lemma CharRoundTrip(c: char, t: string)
    ensures ParseChar(EscapeChar(c) + t) == Some(Parsed(c, t))
  {
    var e := EscapeChar(c);
    if c == '"' || c == '\\' || c as int == 8 || c as int == 12 || c == '\n' || c == '\r' || c == '\t' {
      assert (e + t)[1..] == [e[1]] + t;
    } else if c as int < 32 {
      var hi, lo := c as int / 16, c as int % 16;
      HexRoundTrip(hi);
      HexRoundTrip(lo);
      assert e == ['\\', 'u', '0', '0', HexDigit(hi), HexDigit(lo)];
      var u := (e + t)[1..];
      assert u == ['u', '0', '0', HexDigit(hi), HexDigit(lo)] + t;
      assert u[1..5] == ['0', '0', HexDigit(hi), HexDigit(lo)];
      assert u[5..] == t;
    } else {
      assert e + t == [c] + t;
    }
  }

  /** Four lower-case hex digits for a code unit, as written after `\u`. */
  function HexText(v: int): (r: string)
    requires 0 <= v < 0x1_0000
    ensures |r| == 4
  {
    var r1, r2 := v % 4096, v % 4096 % 256;
    [HexDigit(v / 4096), HexDigit(r1 / 256), HexDigit(r2 / 16), HexDigit(r2 % 16)]
  }

  lemma HexTextRoundTrip(v: int)
    requires 0 <= v < 0x1_0000
    ensures Hex4(HexText(v)) == Some(v)
  {
    var a, r1 := v / 4096, v % 4096;
    var b, r2 := r1 / 256, r1 % 256;
    var c, d := r2 / 16, r2 % 16;
    HexRoundTrip(a);
    HexRoundTrip(b);
    HexRoundTrip(c);
    HexRoundTrip(d);
    assert ((a * 16 + b) * 16 + c) * 16 + d == a * 4096 + b * 256 + c * 16 + d == v;
  }

  /**
   * A character beyond the Basic Multilingual Plane, escaped as its UTF-16
   * surrogate pair `\uD8xx\uDCxx`, parses back as that one character.
   */
  lemma SurrogatePairRoundTrip(c: char, t: string)
    requires c as int >= 0x1_0000
    ensures var u := c as int - 0x1_0000;
            ParseChar("\\u" + HexText(0xD800 + u / 0x400) + "\\u" + HexText(0xDC00 + u % 0x400) + t) == Some(Parsed(c, t))
  {
    var u := c as int - 0x1_0000;
    var hi, lo := 0xD800 + u / 0x400, 0xDC00 + u % 0x400;
    HexTextRoundTrip(hi);
    HexTextRoundTrip(lo);
    var s := "\\u" + HexText(hi) + "\\u" + HexText(lo) + t;
    var e := s[1..];
    assert e[1..5] == HexText(hi);
    var after := e[5..];
    assert after == "\\u" + HexText(lo) + t;
    assert after[2..6] == HexText(lo);
    assert after[6..] == t;
    assert 0x1_0000 + (hi - 0xD800) * 0x400 + (lo - 0xDC00) == c as int;
  }

  lemma {:induction false} CharsRoundTrip(s: string, tail: string)
    ensures ParseChars(Escape(s) + "\"" + tail) == Some(Parsed(s, tail))
  {
    if s == [] {
      assert Escape(s) + "\"" + tail == "\"" + tail;
    } else {
      var e := EscapeChar(s[0]);
      var more := Escape(s[1..]) + "\"" + tail;
      assert Escape(s) + "\"" + tail == e + more;
      assert (e + more)[0] == e[0];
      CharRoundTrip(s[0], more);
      CharsRoundTrip(s[1..], tail);
      assert [s[0]] + s[1..] == s;
    }
  }

  lemma {:induction false} DigitCountOf(d: string, rest: string)
    requires Decimal.AllDigits(d)
    requires rest == [] || !Decimal.IsDigit(rest[0])
    ensures DigitCount(d + rest) == |d|
  {
    if d != [] {
      assert (d + rest)[1..] == d[1..] + rest;
      DigitCountOf(d[1..], rest);
    }
  }

  lemma NumberRoundTrip(n: int, rest: string)
    requires Follows(rest)
    ensures ParseNumber(Decimal.Show(n) + rest) == Some(Parsed(JNum(n), rest))
  {
    var t := Decimal.Show(n) + rest;
    Decimal.ReadShow(n);
    if n < 0 {
      var d := Decimal.Digits(-n);
      assert t[1..] == d + rest;
      DigitCountOf(d, rest);
      assert t[..1 + |d|] == Decimal.Show(n);
    } else {
      DigitCountOf(Decimal.Digits(n), rest);
      assert t[..|Decimal.Digits(n)|] == Decimal.Show(n);
    }
  }

  /** Parsing the text of a well-formed value gives the value back, and leaves what followed it. */
  lemma {:induction false} ValueRoundTrip(j: Json, rest: string)
    requires WellFormed(j) && Follows(rest)
    ensures ParseValue(Stringify(j) + rest) == Some(Parsed(j, rest))
    decreases j, 1
  {
    FirstOfValue(j, rest);
    BareRoundTrip(j, rest);
  }

  lemma {:induction false} BareRoundTrip(j: Json, rest: string)
    requires WellFormed(j) && Follows(rest)
    ensures ParseBare(Stringify(j) + rest) == Some(Parsed(j, rest))
    decreases j, 0
  {
    match j
    case JNull => LiteralRoundTrip(j, rest);
    case JBool(_) => LiteralRoundTrip(j, rest);
    case JNum(n) =>
      NumberRoundTrip(n, rest);
      FirstOfValue(j, rest);
    case JStr(s) => StringRoundTrip(s, rest);
    case JArr(items) => ArrayRoundTrip(items, rest);
    case JObj(fs) => ObjectRoundTrip(fs, rest);
  }

  lemma LiteralRoundTrip(j: Json, rest: string)
    requires j.JNull? || j.JBool?
    ensures ParseBare(Stringify(j) + rest) == Some(Parsed(j, rest))
  {
    var t := Stringify(j) + rest;
    if j.JNull? {
      assert t[..4] == "null" && t[4..] == rest;
    } else if j.b {
      assert t[..4] == "true" && t[4..] == rest;
    } else {
      assert t[..5] == "false" && t[5..] == rest;
    }
  }

  lemma StringRoundTrip(s: string, rest: string)
    ensures ParseBare(Stringify(JStr(s)) + rest) == Some(Parsed(JStr(s), rest))
  {
    var t := Stringify(JStr(s)) + rest;
    assert t[1..] == Escape(s) + "\"" + rest;
    CharsRoundTrip(s, rest);
  }

  lemma {:induction false} ArrayRoundTrip(items: seq<Json>, rest: string)
    requires forall i :: 0 <= i < |items| ==> WellFormed(items[i])
    requires Follows(rest)
    ensures ParseBare(Stringify(JArr(items)) + rest) == Some(Parsed(JArr(items), rest))
    decreases items, 2
  {
    var u := Items(items) + "]" + rest;
    BracketText(JArr(items), rest);
    BareOpen(u);
    if items == [] {
      EmptyArray(rest);
    } else {
      ArrayBody(items, rest);
    }
  }

  /** The text after the `[` of a non-empty array parses back to its elements. */
  lemma {:induction false} ArrayBody(items: seq<Json>, rest: string)
    requires items != []
    requires forall i :: 0 <= i < |items| ==> WellFormed(items[i])
    requires Follows(rest)
    ensures ParseArray(Items(items) + "]" + rest) == Some(Parsed(JArr(items), rest))
    decreases items, 1
  {
    var u := Items(items) + "]" + rest;
    ItemsRoundTrip(items, rest);
    FirstOfItems(items, "]" + rest);
    Regroup(Items(items), "]", rest);
    OpenItems(u, items, rest);
  }

  lemma {:induction false} ObjectRoundTrip(fs: seq<Field>, rest: string)
    requires DistinctKeys(fs)
    requires forall i :: 0 <= i < |fs| ==> WellFormed(fs[i].value)
    requires Follows(rest)
    ensures ParseBare(Stringify(JObj(fs)) + rest) == Some(Parsed(JObj(fs), rest))
    decreases fs, 2
  {
    var u := Members(fs) + "}" + rest;
    BracketText(JObj(fs), rest);
    BareOpen(u);
    if fs == [] {
      EmptyObject(rest);
    } else {
      ObjectBody(fs, rest);
    }
  }

  /** The text after the `{` of a non-empty object parses back to its members. */
  lemma {:induction false} ObjectBody(fs: seq<Field>, rest: string)
    requires fs != [] && DistinctKeys(fs)
    requires forall i :: 0 <= i < |fs| ==> WellFormed(fs[i].value)
    requires Follows(rest)
    ensures ParseObject(Members(fs) + "}" + rest) == Some(Parsed(JObj(fs), rest))
    decreases fs, 1
  {
    var u := Members(fs) + "}" + rest;
    MembersRoundTrip(fs, rest);
    MembersStart(fs, "}", rest);
    OpenMembers(u, fs, rest);
    CollectFresh([], fs);
    assert [] + fs == fs;
  }

  /** The text of an array or object and what follows: the opening bracket, then the rest. */
  lemma BracketText(j: Json, rest: string)
    requires j.JArr? || j.JObj?
    ensures j.JArr? ==> Stringify(j) + rest == "[" + (Items(j.items) + "]" + rest)
    ensures j.JObj? ==> Stringify(j) + rest == "{" + (Members(j.fields) + "}" + rest)
  {
  }

  lemma EmptyArray(rest: string)
    ensures ParseArray(Items([]) + "]" + rest) == Some(Parsed(JArr([]), rest))
  {
    assert Items([]) + "]" + rest == "]" + rest;
    CloseAfter(']', rest);
  }

  lemma EmptyObject(rest: string)
    ensures ParseObject(Members([]) + "}" + rest) == Some(Parsed(JObj([]), rest))
  {
    assert Members([]) + "}" + rest == "}" + rest;
    CloseAfter('}', rest);
  }

  /** How ParseBare dispatches on an opening bracket. */
  lemma BareOpen(u: string)
    ensures ParseBare("[" + u) == ParseArray(u)
    ensures ParseBare("{" + u) == ParseObject(u)
  {
    assert ("[" + u)[1..] == u;
    assert ("{" + u)[1..] == u;
  }

  /** An empty array or object: the closing bracket comes right away. */
  lemma CloseAfter(c: char, rest: string)
    requires c == ']' || c == '}'
    ensures c == ']' ==> ParseArray([c] + rest) == Some(Parsed(JArr([]), rest))
    ensures c == '}' ==> ParseObject([c] + rest) == Some(Parsed(JObj([]), rest))
  {
    assert ([c] + rest)[1..] == rest;
  }

  /** A non-empty array or object: its contents start right away. */
  lemma OpenItems(u: string, items: seq<Json>, rest: string)
    requires u != [] && !IsWs(u[0]) && u[0] != ']'
    requires ParseItems(u) == Some(Parsed(items, rest))
    ensures ParseArray(u) == Some(Parsed(JArr(items), rest))
  {
  }

  lemma OpenMembers(u: string, fs: seq<Field>, rest: string)
    requires u != [] && u[0] == '"'
    requires ParseMembers(u) == Some(Parsed(fs, rest))
    ensures ParseObject(u) == Some(Parsed(JObj(Collect([], fs)), rest))
  {
  }

  /** The text of a value starts with neither white space nor a closing bracket. */
  lemma FirstOfValue(j: Json, rest: string)
    ensures |Stringify(j) + rest| > 0
    ensures (Stringify(j) + rest)[0] in {'n', 't', 'f', '"', '[', '{', '-', '0', '1', '2', '3', '4', '5', '6', '7', '8', '9'}
  {
    if j.JNum? {
      var d := Decimal.Digits(if j.n < 0 then -j.n else j.n);
      assert d[0] in {'0', '1', '2', '3', '4', '5', '6', '7', '8', '9'};
    }
  }

  lemma FirstOfItems(items: seq<Json>, rest: string)
    requires items != []
    ensures |Items(items) + rest| > 0
    ensures (Items(items) + rest)[0] in {'n', 't', 'f', '"', '[', '{', '-', '0', '1', '2', '3', '4', '5', '6', '7', '8', '9'}
  {
    var more := if |items| == 1 then rest else "," + Items(items[1..]) + rest;
    assert Items(items) + rest == Stringify(items[0]) + more;
    FirstOfValue(items[0], more);
  }

  /** The text of a non-empty object's members starts with the quote of its first key. */
  lemma MembersStart(fs: seq<Field>, a: string, b: string)
    requires fs != []
    ensures |Members(fs) + a + b| > 0 && (Members(fs) + a + b)[0] == '"'
  {
    var m := Member(fs[0]);
    assert m[0] == '"';
    if |fs| == 1 {
      assert Members(fs) == m;
    } else {
      assert Members(fs) == m + "," + Members(fs[1..]);
    }
  }

  lemma {:induction false} ItemsRoundTrip(items: seq<Json>, rest: string)
    requires items != []
    requires forall i :: 0 <= i < |items| ==> WellFormed(items[i])
    requires Follows(rest)
    ensures ParseItems(Items(items) + "]" + rest) == Some(Parsed(items, rest))
    decreases items, 0, 2
  {
    if |items| == 1 {
      ItemsSingle(items, rest);
    } else {
      ItemsHead(items, rest);
      ItemsTail(items);
      ItemsRoundTrip(items[1..], rest);
    }
  }

  /** The only element of an array, then its `]`. */
  lemma ItemsSingle(items: seq<Json>, rest: string)
    requires |items| == 1 && WellFormed(items[0]) && Follows(rest)
    ensures ParseItems(Items(items) + "]" + rest) == Some(Parsed(items, rest))
    decreases items, 0, 0
  {
    var s := Items(items) + "]" + rest;
    assert Items(items) == Stringify(items[0]);
    Regroup(Stringify(items[0]), "]", rest);
    ValueRoundTrip(items[0], "]" + rest);
    ItemsClose(s, items[0], rest);
    assert [items[0]] == items;
  }

  /** The first of several elements, then a comma and the others. */
  lemma ItemsHead(items: seq<Json>, rest: string)
    requires |items| > 1 && WellFormed(items[0]) && Follows(rest)
    ensures ParseItems(Items(items) + "]" + rest) ==
      match ParseItems(Items(items[1..]) + "]" + rest)
      case None => None
      case Some(q) => Some(Parsed([items[0]] + q.value, q.rest))
    ensures [items[0]] + items[1..] == items
    decreases items, 0, 0
  {
    var s := Items(items) + "]" + rest;
    var more := Items(items[1..]) + "]" + rest;
    ItemsText(items, rest);
    ValueRoundTrip(items[0], "," + more);
    ItemsComma(s, items[0], more);
  }

  lemma ItemsText(items: seq<Json>, rest: string)
    requires |items| > 1
    ensures Items(items) + "]" + rest == Stringify(items[0]) + ("," + (Items(items[1..]) + "]" + rest))
  {
    var v := Stringify(items[0]);
    var tail := Items(items[1..]);
    ItemsUnfold(items);
    Regroup(v, ",", tail + "]" + rest);
    Regroup(v + "," + tail, "]", rest);
    Regroup(tail, "]", rest);
  }

  lemma ItemsUnfold(items: seq<Json>)
    requires |items| > 1
    ensures Items(items) == Stringify(items[0]) + "," + Items(items[1..])
  {
  }

  lemma ItemsTail(items: seq<Json>)
    requires items != []
    requires forall i :: 0 <= i < |items| ==> WellFormed(items[i])
    ensures forall i :: 0 <= i < |items[1..]| ==> WellFormed(items[1..][i])
  {
    forall i | 0 <= i < |items[1..]| ensures WellFormed(items[1..][i]) {
      assert items[1..][i] == items[i + 1];
    }
  }

  lemma ItemsComma(s: string, v: Json, more: string)
    requires ParseValue(s) == Some(Parsed(v, "," + more))
    ensures ParseItems(s) ==
      match ParseItems(more)
      case None => None
      case Some(q) => Some(Parsed([v] + q.value, q.rest))
  {
    assert ("," + more)[1..] == more;
  }

  lemma ItemsClose(s: string, v: Json, rest: string)
    requires ParseValue(s) == Some(Parsed(v, "]" + rest))
    ensures ParseItems(s) == Some(Parsed([v], rest))
  {
    assert ("]" + rest)[1..] == rest;
  }

  /** One member of an object: its key, the colon and its value, then what comes after. */
  lemma MembersStep(s: string, key: string, y: string, v: Json, r: string)
    requires s != [] && s[0] == '"'
    requires ParseChars(s[1..]) == Some(Parsed(key, ":" + y))
    requires ParseValue(y) == Some(Parsed(v, r))
    ensures ParseMembers(s) ==
      if r != [] && r[0] == ',' then
        match ParseMembers(r[1..])
        case None => None
        case Some(q) => Some(Parsed([Field(key, v)] + q.value, q.rest))
      else if r != [] && r[0] == '}' then Some(Parsed([Field(key, v)], r[1..]))
      else None
  {
    assert (":" + y)[1..] == y;
  }

  /** A member followed by a comma: the members after it are parsed next. */
  lemma MembersComma(s: string, key: string, y: string, v: Json, more: string)
    requires s != [] && s[0] == '"'
    requires ParseChars(s[1..]) == Some(Parsed(key, ":" + y))
    requires ParseValue(y) == Some(Parsed(v, "," + more))
    ensures ParseMembers(s) ==
      match ParseMembers(more)
      case None => None
      case Some(q) => Some(Parsed([Field(key, v)] + q.value, q.rest))
  {
    MembersStep(s, key, y, v, "," + more);
    assert ("," + more)[1..] == more;
  }

  /** A member followed by the closing brace: the last member. */
  lemma MembersClose(s: string, key: string, y: string, v: Json, rest: string)
    requires s != [] && s[0] == '"'
    requires ParseChars(s[1..]) == Some(Parsed(key, ":" + y))
    requires ParseValue(y) == Some(Parsed(v, "}" + rest))
    ensures ParseMembers(s) == Some(Parsed([Field(key, v)], rest))
  {
    MembersStep(s, key, y, v, "}" + rest);
    assert ("}" + rest)[1..] == rest;
  }

  lemma MemberText(f: Field, after: string)
    ensures Member(f) + after == "\"" + (Escape(f.key) + "\"" + (":" + (Stringify(f.value) + after)))
  {
  }

  lemma MembersText(fs: seq<Field>, rest: string)
    requires fs != []
    ensures Members(fs) + "}" + rest ==
      Member(fs[0]) + (if |fs| == 1 then "}" + rest else "," + (Members(fs[1..]) + "}" + rest))
  {
    var m := Member(fs[0]);
    if |fs| == 1 {
      assert Members(fs) == m;
      Regroup(m, "}", rest);
    } else {
      var tail := Members(fs[1..]);
      assert Members(fs) == m + "," + tail;
      Regroup(m, ",", tail + "}" + rest);
      Regroup(m + "," + tail, "}", rest);
      Regroup(tail, "}", rest);
    }
  }

  lemma Regroup(a: string, b: string, c: string)
    ensures a + b + c == a + (b + c)
  {
  }

  /** The first member of a non-empty object text, and what the parser makes of the rest. */
  lemma MembersHead(fs: seq<Field>, rest: string)
    requires |fs| > 1
    requires WellFormed(fs[0].value)
    requires Follows(rest)
    ensures ParseMembers(Members(fs) + "}" + rest) ==
      match ParseMembers(Members(fs[1..]) + "}" + rest)
      case None => None
      case Some(q) => Some(Parsed([fs[0]] + q.value, q.rest))
    ensures [fs[0]] + fs[1..] == fs
    decreases fs, 0, 0
  {
    var f := fs[0];
    var more := Members(fs[1..]) + "}" + rest;
    var after := "," + more;
    var s := Members(fs) + "}" + rest;
    var y := Stringify(f.value) + after;
    MembersText(fs, rest);
    MemberText(f, after);
    CharsRoundTrip(f.key, ":" + y);
    ValueRoundTrip(f.value, after);
    MembersComma(s, f.key, y, f.value, more);
    assert [fs[0]] + fs[1..] == fs;
  }

  /** The members after the first still have distinct keys and well-formed values. */
  lemma MembersTail(fs: seq<Field>)
    requires fs != [] && DistinctKeys(fs)
    requires forall i :: 0 <= i < |fs| ==> WellFormed(fs[i].value)
    ensures DistinctKeys(fs[1..])
    ensures forall i :: 0 <= i < |fs[1..]| ==> WellFormed(fs[1..][i].value)
  {
    forall a, b | 0 <= a < b < |fs[1..]| ensures fs[1..][a].key != fs[1..][b].key {
      assert fs[1..][a] == fs[a + 1] && fs[1..][b] == fs[b + 1];
    }
    forall i | 0 <= i < |fs[1..]| ensures WellFormed(fs[1..][i].value) {
      assert fs[1..][i] == fs[i + 1];
    }
  }

  lemma {:induction false} MembersRoundTrip(fs: seq<Field>, rest: string)
    requires fs != []
    requires DistinctKeys(fs)
    requires forall i :: 0 <= i < |fs| ==> WellFormed(fs[i].value)
    requires Follows(rest)
    ensures ParseMembers(Members(fs) + "}" + rest) == Some(Parsed(fs, rest))
    decreases fs, 0, 2
  {
    if |fs| == 1 {
      MembersSingle(fs, rest);
    } else {
      MembersHead(fs, rest);
      MembersTail(fs);
      MembersRoundTrip(fs[1..], rest);
    }
  }

  lemma MembersSingle(fs: seq<Field>, rest: string)
    requires |fs| == 1 && WellFormed(fs[0].value) && Follows(rest)
    ensures ParseMembers(Members(fs) + "}" + rest) == Some(Parsed(fs, rest))
    decreases fs, 0, 0
  {
    var f := fs[0];
    var after := "}" + rest;
    var s := Members(fs) + "}" + rest;
    var y := Stringify(f.value) + after;
    MembersText(fs, rest);
    MemberText(f, after);
    CharsRoundTrip(f.key, ":" + y);
    ValueRoundTrip(f.value, after);
    MembersClose(s, f.key, y, f.value, rest);
    assert [f] == fs;
  }

  /** `JSON.parse(JSON.stringify(v))` equals `v` for every well-formed value. */
  lemma ParseStringify(j: Json)
    requires WellFormed(j)
    ensures Parse(Stringify(j)) == Some(j)
  {
    ValueRoundTrip(j, "");
    assert Stringify(j) + "" == Stringify(j);
  }
}
