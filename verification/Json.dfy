/** JSON text as the dump writes and reads it: a compact printer and a
    recursive-descent reader, with the string grammar of section 7 of RFC 8259
    and a bound on how deeply values may nest. */
module Json {
  import opened Text

  /** Numbers are kept as they are spelled; object members keep their order and
      their repetitions. */
  datatype Json =
    | Null
    | Bool(b: bool)
    | Num(lexeme: string)
    | Str(s: string)
    | Arr(items: Items)
    | Obj(members: Members)

  datatype Items = NoItems | Item(head: Json, tail: Items)

  datatype Members = NoMembers | Member(key: string, value: Json, rest: Members)

  /** The reader refuses a value nested this deep. */
  const RECURSION_LIMIT: nat := 128

  // -------------------------------------------------------------------- printing

  function EscapeChar(c: char): string {
    if c == '\"' then "\\\""
    else if c == '\\' then "\\\\"
    else if c == '\n' then "\\n"
    else if c == '\r' then "\\r"
    else if c == '\t' then "\\t"
    else if c as int == 8 then "\\b"
    else if c as int == 12 then "\\f"
    else if c < ' ' then "\\u00" + [HexDigit(c as int / 16), HexDigit(c as int % 16)]
    else [c]
  }

  function Escape(s: string): string {
    if s == "" then "" else EscapeChar(s[0]) + Escape(s[1..])
  }

  function Quote(s: string): string { "\"" + Escape(s) + "\"" }

  function Print(j: Json): string {
    match j
    case Null => "null"
    case Bool(b) => if b then "true" else "false"
    case Num(lexeme) => lexeme
    case Str(s) => Quote(s)
    case Arr(items) => "[" + PrintItems(items) + "]"
    case Obj(members) => "{" + PrintMembers(members) + "}"
  }

  function PrintItems(items: Items): string {
    match items
    case NoItems => ""
    case Item(head, tail) => Print(head) + (if tail.NoItems? then "" else "," + PrintItems(tail))
  }

  function PrintMembers(members: Members): string {
    match members
    case NoMembers => ""
    case Member(key, value, rest) =>
      Quote(key) + ":" + Print(value) + (if rest.NoMembers? then "" else "," + PrintMembers(rest))
  }

  // --------------------------------------------------------------------- reading

  /** What a reader of a prefix of the text found, and the text it left. */
  datatype Parsed<+T> = Bad | Got(value: T, rest: string)

  predicate IsSpace(c: char) { c == ' ' || c == '\n' || c == '\t' || c == '\r' }

  function SkipSpace(s: string): (r: string)
    ensures |r| <= |s|
    ensures r != "" ==> !IsSpace(r[0])
  {
    if s != "" && IsSpace(s[0]) then SkipSpace(s[1..]) else s
  }

  function HexValue(c: char): (r: Option<nat>)
    ensures r.Some? ==> r.value < 16
  {
    if '0' <= c <= '9' then Some(c as int - '0' as int)
    else if 'a' <= c <= 'f' then Some(c as int - 'a' as int + 10)
    else if 'A' <= c <= 'F' then Some(c as int - 'A' as int + 10)
    else None
  }

  function ParseHex4(s: string): (r: Parsed<nat>)
    ensures r.Got? ==> r.value < 0x1_0000 && |s| >= 4 && r.rest == s[4..]
  {
    if |s| < 4 then Bad
    else
      var (a, b, c, d) := (HexValue(s[0]), HexValue(s[1]), HexValue(s[2]), HexValue(s[3]));
      if a.Some? && b.Some? && c.Some? && d.Some? then
        Got(((a.value * 16 + b.value) * 16 + c.value) * 16 + d.value, s[4..])
      else Bad
  }

  /** A `\u` escape, the two letters already read. A surrogate is accepted only
      as the first half of a pair. */
  function ParseUnicodeEscape(s: string): (r: Parsed<char>)
    ensures r.Got? ==> |r.rest| < |s|
  {
    match ParseHex4(s)
    case Bad => Bad
    case Got(n, rest) =>
      if n < 0xD800 || n >= 0xE000 then Got(n as char, rest)
      else if n >= 0xDC00 || !("\\u" <= rest) then Bad
      else
        match ParseHex4(rest[2..])
        case Bad => Bad
        case Got(m, rest2) =>
          if 0xDC00 <= m < 0xE000
          then Got((0x1_0000 + (n - 0xD800) * 0x400 + (m - 0xDC00)) as char, rest2)
          else Bad
  }

  /** An escape, the backslash already read. */
  function ParseEscape(s: string): (r: Parsed<char>)
    ensures r.Got? ==> |r.rest| < |s|
  {
    if s == "" then Bad
    else if s[0] == '\"' || s[0] == '\\' || s[0] == '/' then Got(s[0], s[1..])
    else if s[0] == 'b' then Got(8 as char, s[1..])
    else if s[0] == 'f' then Got(12 as char, s[1..])
    else if s[0] == 'n' then Got('\n', s[1..])
    else if s[0] == 'r' then Got('\r', s[1..])
    else if s[0] == 't' then Got('\t', s[1..])
    else if s[0] == 'u' then ParseUnicodeEscape(s[1..])
    else Bad
  }

  /** The rest of a string whose opening quote has been read. */
  function ParseString(s: string): (r: Parsed<string>)
    ensures r.Got? ==> |r.rest| < |s|
    decreases |s|
  {
    if s == "" then Bad
    else if s[0] == '\"' then Got("", s[1..])
    else if s[0] == '\\' then
      match ParseEscape(s[1..])
      case Bad => Bad
      case Got(c, rest) => Cons(c, ParseString(rest))
    else if s[0] < ' ' then Bad
    else Cons(s[0], ParseString(s[1..]))
  }

  function Cons(c: char, p: Parsed<string>): Parsed<string> {
    match p
    case Bad => Bad
    case Got(s, rest) => Got([c] + s, rest)
  }

  function Digits(s: string): (r: string)
    ensures r <= s
    ensures forall c :: c in r ==> IsDigit(c)
    ensures |r| < |s| ==> !IsDigit(s[|r|])
  {
    if s != "" && IsDigit(s[0]) then [s[0]] + Digits(s[1..]) else ""
  }

  /** A run of at least one digit. */
  function ParseDigits(s: string): (r: Parsed<string>)
    ensures r.Got? ==> |r.rest| < |s|
  {
    var ds := Digits(s);
    if ds == "" then Bad else Got(ds, s[|ds|..])
  }

  function ParseSignedDigits(s: string): (r: Parsed<string>)
    ensures r.Got? ==> |r.rest| < |s|
  {
    if s != "" && (s[0] == '+' || s[0] == '-') then Cons(s[0], ParseDigits(s[1..]))
    else ParseDigits(s)
  }

  /** An optional fraction: a point needs a digit after it. */
  function ParseFraction(s: string): (r: Parsed<string>)
    ensures r.Got? ==> |r.rest| <= |s|
  {
    if s == "" || s[0] != '.' then Got("", s) else Cons('.', ParseDigits(s[1..]))
  }

  /** An optional exponent, which may carry a sign and needs a digit. */
  function ParseExponent(s: string): (r: Parsed<string>)
    ensures r.Got? ==> |r.rest| <= |s|
  {
    if s == "" || (s[0] != 'e' && s[0] != 'E') then Got("", s)
    else Cons(s[0], ParseSignedDigits(s[1..]))
  }

  function ParseUnsigned(s: string): (r: Parsed<string>)
    ensures r.Got? ==> |r.rest| < |s|
  {
    var ds := Digits(s);
    if ds == "" || (ds[0] == '0' && |ds| > 1) then Bad
    else
      match ParseFraction(s[|ds|..])
      case Bad => Bad
      case Got(frac, afterFrac) =>
        match ParseExponent(afterFrac)
        case Bad => Bad
        case Got(exp, rest) => Got(ds + frac + exp, rest)
  }

  function ParseNumber(s: string): (r: Parsed<Json>)
    ensures r.Got? ==> r.value.Num? && |r.rest| < |s|
  {
    if s != "" && s[0] == '-' then
      match ParseUnsigned(s[1..])
      case Bad => Bad
      case Got(lexeme, rest) => Got(Num("-" + lexeme), rest)
    else
      match ParseUnsigned(s)
      case Bad => Bad
      case Got(lexeme, rest) => Got(Num(lexeme), rest)
  }

  /** A value that nests nothing; no space before it. */
  function ParseScalar(s: string): (r: Parsed<Json>)
    ensures r.Got? ==> |r.rest| < |s|
    ensures r.Got? ==> !r.value.Arr? && !r.value.Obj?
  {
    if s == "" then Bad
    else if s[0] == 'n' then if "null" <= s then Got(Null, s[4..]) else Bad
    else if s[0] == 't' then if "true" <= s then Got(Bool(true), s[4..]) else Bad
    else if s[0] == 'f' then if "false" <= s then Got(Bool(false), s[5..]) else Bad
    else if s[0] == '-' || IsDigit(s[0]) then ParseNumber(s)
    else if s[0] == '\"' then
      match ParseString(s[1..])
      case Bad => Bad
      case Got(str, rest) => Got(Str(str), rest)
    else Bad
  }

  function ParseValue(text: string, depth: nat): (r: Parsed<Json>)
    ensures r.Got? ==> |r.rest| < |text|
    decreases |text|, 0
  {
    var s := SkipSpace(text);
    if s != "" && s[0] == '[' then ParseArray(s[1..], depth)
    else if s != "" && s[0] == '{' then ParseObject(s[1..], depth)
    else ParseScalar(s)
  }

  /** The rest of an array whose opening bracket has been read. */
  function ParseArray(s: string, depth: nat): (r: Parsed<Json>)
    ensures r.Got? ==> r.value.Arr? && |r.rest| < |s|
    decreases |s|, 2
  {
    var t := SkipSpace(s);
    if depth <= 1 then Bad
    else if t != "" && t[0] == ']' then Got(Arr(NoItems), t[1..])
    else
      match ParseItems(t, depth - 1)
      case Bad => Bad
      case Got(items, rest) => Got(Arr(items), rest)
  }

  /** The rest of an object whose opening brace has been read. */
  function ParseObject(s: string, depth: nat): (r: Parsed<Json>)
    ensures r.Got? ==> r.value.Obj? && |r.rest| < |s|
    decreases |s|, 2
  {
    var t := SkipSpace(s);
    if depth <= 1 then Bad
    else if t != "" && t[0] == '}' then Got(Obj(NoMembers), t[1..])
    else
      match ParseMembers(t, depth - 1)
      case Bad => Bad
      case Got(members, rest) => Got(Obj(members), rest)
  }

  /** One item and whatever follows it up to the closing bracket. */
  function ParseItems(s: string, depth: nat): (r: Parsed<Items>)
    ensures r.Got? ==> |r.rest| < |s|
    decreases |s|, 1
  {
    match ParseValue(s, depth)
    case Bad => Bad
    case Got(head, afterHead) =>
      var t := SkipSpace(afterHead);
      if t == "" then Bad
      else if t[0] == ']' then Got(Item(head, NoItems), t[1..])
      else if t[0] != ',' then Bad
      else
        match ParseItems(t[1..], depth)
        case Bad => Bad
        case Got(tail, rest) => Got(Item(head, tail), rest)
  }

  /** One member and whatever follows it up to the closing brace. */
  function ParseMembers(text: string, depth: nat): (r: Parsed<Members>)
    ensures r.Got? ==> |r.rest| < |text|
    decreases |text|, 1
  {
    match ParseKey(text)
    case Bad => Bad
    case Got(key, afterKey) =>
      match ParseValue(afterKey, depth)
      case Bad => Bad
      case Got(value, afterValue) =>
        var t := SkipSpace(afterValue);
        if t == "" then Bad
        else if t[0] == '}' then Got(Member(key, value, NoMembers), t[1..])
        else if t[0] != ',' then Bad
        else
          match ParseMembers(t[1..], depth)
          case Bad => Bad
          case Got(rest, afterRest) => Got(Member(key, value, rest), afterRest)
  }

  /** A key and the colon after it. */
  function ParseKey(text: string): (r: Parsed<string>)
    ensures r.Got? ==> |r.rest| < |text|
  {
    var s := SkipSpace(text);
    if s == "" || s[0] != '\"' then Bad
    else
      match ParseString(s[1..])
      case Bad => Bad
      case Got(key, rest) =>
        var t := SkipSpace(rest);
        if t == "" || t[0] != ':' then Bad else Got(key, t[1..])
  }

  /** A whole document: one value and nothing but space after it. */
  function Parse(s: string): Option<Json> {
    match ParseValue(s, RECURSION_LIMIT)
    case Bad => None
    case Got(j, rest) => if SkipSpace(rest) == "" then Some(j) else None
  }

  /** Member lookup; of a repeated key the last one counts. */
  function Get(members: Members, key: string): Option<Json> {
    match members
    case NoMembers => None
    case Member(k, v, rest) =>
      var later := Get(rest, key);
      if later.Some? then later else if k == key then Some(v) else None
  }
}
