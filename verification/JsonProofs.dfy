/** Two facts about the JSON reader and printer: what is printed reads back as
    itself, and no proper prefix of a printed object reads as anything. */
module JsonProofs {
  import opened Text
  import opened Json

  // ------------------------------------------- reading past the end of the text
  //
  // Each reader that stopped of its own accord, and not because the text ran
  // out, does the same on any longer text and leaves the addition unread.

  lemma {:induction false} SkipSpaceExtends(s: string, t: string)
    ensures SkipSpace(s) != "" ==> SkipSpace(s + t) == SkipSpace(s) + t
  {
    if s != "" && IsSpace(s[0]) {
      assert (s + t)[1..] == s[1..] + t;
      SkipSpaceExtends(s[1..], t);
    }
  }

  lemma {:induction false} DigitsExtends(s: string, t: string)
    requires |Digits(s)| < |s| || t == "" || !IsDigit(t[0])
    ensures Digits(s + t) == Digits(s)
  {
    if s != "" && IsDigit(s[0]) {
      assert (s + t)[1..] == s[1..] + t;
      DigitsExtends(s[1..], t);
    } else {
      assert s == "" ==> s + t == t;
    }
  }

  lemma ParseHex4Extends(s: string, t: string)
    requires ParseHex4(s).Got?
    ensures ParseHex4(s + t) == Got(ParseHex4(s).value, ParseHex4(s).rest + t)
  {
    assert (s + t)[4..] == s[4..] + t;
  }

  lemma ParseEscapeExtends(s: string, t: string)
    requires ParseEscape(s).Got?
    ensures ParseEscape(s + t) == Got(ParseEscape(s).value, ParseEscape(s).rest + t)
  {
    assert (s + t)[1..] == s[1..] + t;
    if s[0] == 'u' {
      ParseHex4Extends(s[1..], t);
      var h := ParseHex4(s[1..]);
      if 0xD800 <= h.value < 0xE000 {
        assert (h.rest + t)[2..] == h.rest[2..] + t;
        assert "\\u" <= h.rest + t;
        ParseHex4Extends(h.rest[2..], t);
      }
    }
  }

  lemma {:induction false} ParseStringExtends(s: string, t: string)
    requires ParseString(s).Got?
    ensures ParseString(s + t) == Got(ParseString(s).value, ParseString(s).rest + t)
    decreases |s|
  {
    assert (s + t)[1..] == s[1..] + t;
    if s[0] == '\"' {
    } else if s[0] == '\\' {
      ParseEscapeExtends(s[1..], t);
      ParseStringExtends(ParseEscape(s[1..]).rest, t);
    } else {
      ParseStringExtends(s[1..], t);
    }
  }

  lemma ParseDigitsExtends(s: string, t: string)
    requires ParseDigits(s).Got? && ParseDigits(s).rest != ""
    ensures ParseDigits(s + t) == Got(ParseDigits(s).value, ParseDigits(s).rest + t)
  {
    DigitsExtends(s, t);
    var n := |Digits(s)|;
    assert (s + t)[n..] == s[n..] + t;
  }

  lemma ParseSignedDigitsExtends(s: string, t: string)
    requires ParseSignedDigits(s).Got? && ParseSignedDigits(s).rest != ""
    ensures ParseSignedDigits(s + t) == Got(ParseSignedDigits(s).value, ParseSignedDigits(s).rest + t)
  {
    assert (s + t)[1..] == s[1..] + t;
    ParseDigitsExtends(if s[0] == '+' || s[0] == '-' then s[1..] else s, t);
  }

  lemma ParseFractionExtends(s: string, t: string)
    requires ParseFraction(s).Got? && ParseFraction(s).rest != ""
    ensures ParseFraction(s + t) == Got(ParseFraction(s).value, ParseFraction(s).rest + t)
  {
    if s[0] == '.' {
      assert (s + t)[1..] == s[1..] + t;
      ParseDigitsExtends(s[1..], t);
    }
  }

  lemma ParseExponentExtends(s: string, t: string)
    requires ParseExponent(s).Got? && ParseExponent(s).rest != ""
    ensures ParseExponent(s + t) == Got(ParseExponent(s).value, ParseExponent(s).rest + t)
  {
    if s[0] == 'e' || s[0] == 'E' {
      assert (s + t)[1..] == s[1..] + t;
      ParseSignedDigitsExtends(s[1..], t);
    }
  }

  lemma ParseUnsignedExtends(s: string, t: string)
    requires ParseUnsigned(s).Got? && ParseUnsigned(s).rest != ""
    ensures ParseUnsigned(s + t) == Got(ParseUnsigned(s).value, ParseUnsigned(s).rest + t)
  {
    var n := |Digits(s)|;
    assert (s + t)[n..] == s[n..] + t;
    var f := ParseFraction(s[n..]);
    assert ParseExponent(f.rest).rest != "" && f.rest != "";
    DigitsExtends(s, t);
    ParseFractionExtends(s[n..], t);
    ParseExponentExtends(f.rest, t);
  }

  lemma ParseNumberExtends(s: string, t: string)
    requires ParseNumber(s).Got? && ParseNumber(s).rest != ""
    ensures ParseNumber(s + t) == Got(ParseNumber(s).value, ParseNumber(s).rest + t)
  {
    assert (s + t)[1..] == s[1..] + t;
    ParseUnsignedExtends(if s[0] == '-' then s[1..] else s, t);
  }

  lemma {:induction false} ParseKeyExtends(s: string, t: string)
    requires ParseKey(s).Got?
    ensures ParseKey(s + t) == Got(ParseKey(s).value, ParseKey(s).rest + t)
  {
    SkipSpaceExtends(s, t);
    var u := SkipSpace(s);
    assert (u + t)[1..] == u[1..] + t;
    ParseStringExtends(u[1..], t);
    var w := ParseString(u[1..]).rest;
    SkipSpaceExtends(w, t);
    assert (SkipSpace(w) + t)[1..] == SkipSpace(w)[1..] + t;
  }

  /** A number may go on past the end of its text; everything else is closed by
      its last character. */
  predicate Closed(v: Json, rest: string) { rest != "" || !v.Num? }

  lemma ParseScalarExtends(s: string, t: string)
    requires ParseScalar(s).Got?
    requires Closed(ParseScalar(s).value, ParseScalar(s).rest)
    ensures ParseScalar(s + t) == Got(ParseScalar(s).value, ParseScalar(s).rest + t)
  {
    assert (s + t)[0] == s[0];
    if s[0] == 'n' || s[0] == 't' {
      assert (s + t)[4..] == s[4..] + t;
    } else if s[0] == 'f' {
      assert (s + t)[5..] == s[5..] + t;
    } else if s[0] == '\"' {
      assert (s + t)[1..] == s[1..] + t;
      ParseStringExtends(s[1..], t);
    } else {
      ParseNumberExtends(s, t);
    }
  }

  lemma {:induction false} ParseValueExtends(text: string, depth: nat, t: string)
    requires ParseValue(text, depth).Got?
    requires Closed(ParseValue(text, depth).value, ParseValue(text, depth).rest)
    ensures ParseValue(text + t, depth)
         == Got(ParseValue(text, depth).value, ParseValue(text, depth).rest + t)
    decreases |text|, 0
  {
    var s := SkipSpace(text);
    SkipSpaceExtends(text, t);
    assert (s + t)[0] == s[0] && (s + t)[1..] == s[1..] + t;
    if s[0] == '[' {
      ParseArrayExtends(s[1..], depth, t);
    } else if s[0] == '{' {
      ParseObjectExtends(s[1..], depth, t);
    } else {
      ParseScalarExtends(s, t);
    }
  }

  lemma {:induction false} ParseArrayExtends(s: string, depth: nat, t: string)
    requires ParseArray(s, depth).Got?
    ensures ParseArray(s + t, depth) == Got(ParseArray(s, depth).value, ParseArray(s, depth).rest + t)
    decreases |s|, 2
  {
    var u := SkipSpace(s);
    SkipSpaceExtends(s, t);
    if u != "" && u[0] == ']' {
      assert (u + t)[1..] == u[1..] + t;
    } else {
      ParseItemsExtends(u, depth - 1, t);
      assert (u + t)[0] == u[0];
    }
  }

  lemma {:induction false} ParseObjectExtends(s: string, depth: nat, t: string)
    requires ParseObject(s, depth).Got?
    ensures ParseObject(s + t, depth) == Got(ParseObject(s, depth).value, ParseObject(s, depth).rest + t)
    decreases |s|, 2
  {
    var u := SkipSpace(s);
    SkipSpaceExtends(s, t);
    if u != "" && u[0] == '}' {
      assert (u + t)[1..] == u[1..] + t;
    } else {
      ParseMembersExtends(u, depth - 1, t);
      assert (u + t)[0] == u[0];
    }
  }

  lemma {:induction false} ParseItemsExtends(s: string, depth: nat, t: string)
    requires ParseItems(s, depth).Got?
    ensures ParseItems(s + t, depth) == Got(ParseItems(s, depth).value, ParseItems(s, depth).rest + t)
    decreases |s|, 1
  {
    var after := ParseValue(s, depth).rest;
    ParseValueExtends(s, depth, t);
    var u := SkipSpace(after);
    SkipSpaceExtends(after, t);
    assert (u + t)[1..] == u[1..] + t;
    if u[0] == ',' {
      ParseItemsExtends(u[1..], depth, t);
    }
  }

  lemma {:induction false} ParseMembersExtends(s: string, depth: nat, t: string)
    requires ParseMembers(s, depth).Got?
    ensures ParseMembers(s + t, depth) == Got(ParseMembers(s, depth).value, ParseMembers(s, depth).rest + t)
    decreases |s|, 1
  {
    hide SkipSpace, ParseKey, ParseValue;
    ParseKeyExtends(s, t);
    var afterKey := ParseKey(s).rest;
    ParseValueExtends(afterKey, depth, t);
    var after := ParseValue(afterKey, depth).rest;
    var u := SkipSpace(after);
    SkipSpaceExtends(after, t);
    assert (u + t)[1..] == u[1..] + t;
    if u[0] == ',' {
      ParseMembersExtends(u[1..], depth, t);
    }
  }

  // ------------------------------------------------------------------ round trip

  /** A number as an integer is written. */
  predicate IntLexeme(l: string) {
    l != "" && NatLexeme(if l[0] == '-' then l[1..] else l)
  }

  predicate NatLexeme(ds: string) {
    ds != "" && (forall c :: c in ds ==> IsDigit(c)) && (ds[0] == '0' ==> |ds| == 1)
  }

  lemma IntLexemeChars(l: string)
    requires IntLexeme(l)
    ensures forall c :: c in l ==> c == '-' || IsDigit(c)
  {
    if l[0] == '-' {
      assert l == "-" + l[1..];
    }
  }

  predicate Printable(j: Json, depth: nat)
    decreases j, 0
  {
    match j
    case Num(lexeme) => IntLexeme(lexeme)
    case Arr(items) => depth > 1 && PrintableItems(items, depth - 1)
    case Obj(members) => depth > 1 && PrintableMembers(members, depth - 1)
    case _ => true
  }

  predicate PrintableItems(items: Items, depth: nat)
    decreases items, 1
  {
    items.Item? ==> Printable(items.head, depth) && PrintableItems(items.tail, depth)
  }

  predicate PrintableMembers(members: Members, depth: nat)
    decreases members, 1
  {
    members.Member? ==> Printable(members.value, depth) && PrintableMembers(members.rest, depth)
  }

  /** The text that may stand after a printed value without being read as part
      of it. */
  predicate Stop(t: string) { t == "" || t[0] == ',' || t[0] == ']' || t[0] == '}' }

  predicate Plain(c: char) { c != '\"' && c != '\\' && c >= ' ' }

  lemma ParseEscapedChar(c: char, t: string)
    requires !Plain(c)
    ensures EscapeChar(c)[0] == '\\' && |EscapeChar(c)| > 1
    ensures ParseEscape(EscapeChar(c)[1..] + t) == Got(c, t)
  {
    var e := EscapeChar(c)[1..] + t;
    if e[0] == 'u' {
      var (h, l) := (HexDigit(c as int / 16), HexDigit(c as int % 16));
      assert e[1..] == "00" + [h, l] + t;
      assert HexValue(h) == Some(c as int / 16) && HexValue(l) == Some(c as int % 16);
      assert HexValue('0') == Some(0);
      assert e[1..][4..] == t;
    } else {
      assert e[1..] == t;
    }
  }

  lemma ParseStringChar(c: char, tail: string)
    ensures ParseString(EscapeChar(c) + tail) == Cons(c, ParseString(tail))
  {
    var all := EscapeChar(c) + tail;
    assert all[1..] == EscapeChar(c)[1..] + tail;
    if Plain(c) {
      assert EscapeChar(c) == [c];
      assert all[1..] == tail;
    } else {
      ParseEscapedChar(c, tail);
    }
  }

  lemma {:induction false} StringRoundTrip(s: string, t: string)
    ensures ParseString(Escape(s) + "\"" + t) == Got(s, t)
  {
    if s == "" {
      assert (Escape(s) + "\"" + t)[1..] == t;
    } else {
      var tail := Escape(s[1..]) + "\"" + t;
      assert Escape(s) + "\"" + t == EscapeChar(s[0]) + tail;
      StringRoundTrip(s[1..], t);
      ParseStringChar(s[0], tail);
      assert [s[0]] + s[1..] == s;
    }
  }

  lemma {:induction false} DigitsOfDigits(ds: string, t: string)
    requires forall c :: c in ds ==> IsDigit(c)
    requires t == "" || !IsDigit(t[0])
    ensures Digits(ds + t) == ds
  {
    if ds == "" {
      assert ds + t == t;
    } else {
      assert (ds + t)[1..] == ds[1..] + t;
      DigitsOfDigits(ds[1..], t);
    }
  }

  lemma UnsignedRoundTrip(ds: string, t: string)
    requires NatLexeme(ds) && Stop(t)
    ensures ParseUnsigned(ds + t) == Got(ds, t)
  {
    DigitsOfDigits(ds, t);
    assert (ds + t)[|ds|..] == t;
    assert ds + "" + "" == ds;
  }

  lemma NumberRoundTrip(l: string, t: string)
    requires IntLexeme(l) && Stop(t)
    ensures ParseNumber(l + t) == Got(Num(l), t)
  {
    if l[0] == '-' {
      assert (l + t)[1..] == l[1..] + t;
      assert l == "-" + l[1..];
      UnsignedRoundTrip(l[1..], t);
    } else {
      UnsignedRoundTrip(l, t);
    }
  }

  lemma SkipNoSpace(s: string)
    requires s != "" && !IsSpace(s[0])
    ensures SkipSpace(s) == s
  {
  }

  lemma PrintStart(j: Json, depth: nat)
    requires Printable(j, depth)
    ensures Print(j) != "" && !IsSpace(Print(j)[0]) && Print(j)[0] != ']' && Print(j)[0] != '}'
    ensures !j.Arr? && !j.Obj? ==> Print(j)[0] != '[' && Print(j)[0] != '{'
  {
    if j.Num? {
      IntLexemeChars(j.lexeme);
      assert j.lexeme[0] in j.lexeme;
    }
  }

  lemma LiteralRoundTrip(j: Json, t: string)
    requires j.Null? || j.Bool?
    ensures ParseScalar(Print(j) + t) == Got(j, t)
  {
    assert (Print(j) + t)[|Print(j)|..] == t;
  }

  lemma QuotedRoundTrip(s: string, t: string)
    ensures ParseScalar(Quote(s) + t) == Got(Str(s), t)
  {
    assert (Quote(s) + t)[1..] == Escape(s) + "\"" + t;
    StringRoundTrip(s, t);
  }

  lemma IntegerRoundTrip(l: string, t: string)
    requires IntLexeme(l) && Stop(t)
    ensures ParseScalar(l + t) == Got(Num(l), t)
  {
    NumberRoundTrip(l, t);
    assert (l + t)[0] == l[0];
    if l[0] != '-' {
      IntLexemeChars(l);
      assert l[0] in l;
    }
  }

  lemma ScalarRoundTrip(j: Json, t: string)
    requires !j.Arr? && !j.Obj? && Printable(j, 0) && Stop(t)
    ensures ParseScalar(Print(j) + t) == Got(j, t)
  {
    match j
    case Str(s) => QuotedRoundTrip(s, t);
    case Num(lexeme) => IntegerRoundTrip(lexeme, t);
    case _ => LiteralRoundTrip(j, t);
  }

  lemma ParseBracketed(x: string, depth: nat)
    ensures ParseValue("[" + x, depth) == ParseArray(x, depth)
    ensures ParseValue("{" + x, depth) == ParseObject(x, depth)
  {
    SkipNoSpace("[" + x);
    SkipNoSpace("{" + x);
    assert ("[" + x)[1..] == x && ("{" + x)[1..] == x;
  }

  lemma ArrayText(items: Items, t: string)
    ensures Print(Arr(items)) + t == "[" + (PrintItems(items) + ("]" + t))
  {
  }

  lemma ObjectText(members: Members, t: string)
    ensures Print(Obj(members)) + t == "{" + (PrintMembers(members) + ("}" + t))
  {
  }

  /** What stands after the first item or member. */
  function AfterItem(items: Items, end: string): string
    requires items.Item?
  {
    if items.tail.NoItems? then end else "," + (PrintItems(items.tail) + end)
  }

  function AfterMember(members: Members, end: string): string
    requires members.Member?
  {
    if members.rest.NoMembers? then end else "," + (PrintMembers(members.rest) + end)
  }

  lemma ItemsText(items: Items, end: string)
    requires items.Item?
    ensures PrintItems(items) + end == Print(items.head) + AfterItem(items, end)
  {
  }

  lemma Regroup(a: string, b: string, c: string, d: string)
    ensures a + b + c + d == a + (b + (c + d))
  {
  }

  lemma MembersText(members: Members, end: string)
    requires members.Member?
    ensures PrintMembers(members) + end
         == Quote(members.key) + ":" + (Print(members.value) + AfterMember(members, end))
    ensures (PrintMembers(members) + end)[0] == '\"'
  {
    var k := Quote(members.key) + ":";
    var tail := if members.rest.NoMembers? then "" else "," + PrintMembers(members.rest);
    assert tail + end == AfterMember(members, end);
    Regroup(k, Print(members.value), tail, end);
    assert k[0] == '\"';
  }

  lemma {:induction false} ValueRoundTrip(j: Json, depth: nat, t: string)
    requires Printable(j, depth) && Stop(t)
    ensures ParseValue(Print(j) + t, depth) == Got(j, t)
    decreases j, 0
  {
    match j
    case Arr(items) =>
      ArrayText(items, t);
      ArrayRoundTrip(items, depth, t);
      ParseBracketed(PrintItems(items) + ("]" + t), depth);
    case Obj(members) =>
      ObjectText(members, t);
      ObjectRoundTrip(members, depth, t);
      ParseBracketed(PrintMembers(members) + ("}" + t), depth);
    case _ =>
      PrintStart(j, depth);
      assert (Print(j) + t)[0] == Print(j)[0];
      SkipNoSpace(Print(j) + t);
      ScalarRoundTrip(j, t);
  }

  lemma {:induction false} ArrayRoundTrip(items: Items, depth: nat, t: string)
    requires depth > 1 && PrintableItems(items, depth - 1) && Stop(t)
    ensures ParseArray(PrintItems(items) + ("]" + t), depth) == Got(Arr(items), t)
    decreases items, 2
  {
    var inner := PrintItems(items) + ("]" + t);
    if items.NoItems? {
      assert inner == "]" + t;
      assert inner[1..] == t;
    } else {
      PrintStart(items.head, depth - 1);
      ItemsText(items, "]" + t);
      assert inner[0] == Print(items.head)[0];
      ItemsRoundTrip(items, depth - 1, t);
    }
    SkipNoSpace(inner);
  }

  lemma {:induction false} ObjectRoundTrip(members: Members, depth: nat, t: string)
    requires depth > 1 && PrintableMembers(members, depth - 1) && Stop(t)
    ensures ParseObject(PrintMembers(members) + ("}" + t), depth) == Got(Obj(members), t)
    decreases members, 2
  {
    var inner := PrintMembers(members) + ("}" + t);
    if members.NoMembers? {
      assert inner == "}" + t;
      assert inner[1..] == t;
    } else {
      MembersText(members, "}" + t);
      MembersRoundTrip(members, depth - 1, t);
    }
    SkipNoSpace(inner);
  }

  /** After a value comes its closing bracket, or a comma and more. */
  lemma CommaText(more: string)
    ensures SkipSpace("," + more) == "," + more && ("," + more)[1..] == more
  {
  }

  lemma {:induction false} ItemsRoundTrip(items: Items, depth: nat, t: string)
    requires items.Item? && PrintableItems(items, depth)
    ensures ParseItems(PrintItems(items) + ("]" + t), depth) == Got(items, t)
    decreases items, 1
  {
    var end := "]" + t;
    ItemsText(items, end);
    ValueRoundTrip(items.head, depth, AfterItem(items, end));
    if items.tail.NoItems? {
      SkipNoSpace(end);
      assert end[1..] == t;
    } else {
      CommaText(PrintItems(items.tail) + end);
      ItemsRoundTrip(items.tail, depth, t);
    }
  }

  lemma KeyRoundTrip(key: string, t: string)
    ensures ParseKey(Quote(key) + ":" + t) == Got(key, t)
  {
    var all := Quote(key) + ":" + t;
    SkipNoSpace(all);
    assert all[1..] == Escape(key) + "\"" + (":" + t);
    StringRoundTrip(key, ":" + t);
    SkipNoSpace(":" + t);
    assert (":" + t)[1..] == t;
  }

  lemma {:induction false} MembersRoundTrip(members: Members, depth: nat, t: string)
    requires members.Member? && PrintableMembers(members, depth)
    ensures ParseMembers(PrintMembers(members) + ("}" + t), depth) == Got(members, t)
    decreases members, 1
  {
    var end := "}" + t;
    MembersText(members, end);
    KeyRoundTrip(members.key, Print(members.value) + AfterMember(members, end));
    ValueRoundTrip(members.value, depth, AfterMember(members, end));
    if members.rest.NoMembers? {
      SkipNoSpace(end);
      assert end[1..] == t;
    } else {
      CommaText(PrintMembers(members.rest) + end);
      MembersRoundTrip(members.rest, depth, t);
    }
  }

  /** Reading undoes printing. */
  lemma DocumentRoundTrip(j: Json)
    requires Printable(j, RECURSION_LIMIT)
    ensures Parse(Print(j)) == Some(j)
  {
    ValueRoundTrip(j, RECURSION_LIMIT, "");
    assert Print(j) + "" == Print(j);
  }

  /** A printed object cut short anywhere is not a document. */
  lemma TruncatedObjectRefused(j: Json, p: string)
    requires j.Obj? && Printable(j, RECURSION_LIMIT)
    requires p < Print(j)
    ensures Parse(p) == None
  {
    var t := Print(j)[|p|..];
    assert p + t == Print(j) && t != "";
    ValueRoundTrip(j, RECURSION_LIMIT, "");
    assert Print(j) + "" == Print(j);
    if Parse(p).Some? {
      assert p[0] == '{';
      SkipNoSpace(p);
      ParseValueExtends(p, RECURSION_LIMIT, t);
    }
  }

  // -------------------------------------------------- printed text is one line

  lemma EscapeCharPlain(c: char)
    ensures forall d :: d in EscapeChar(c) ==> d >= ' '
  {
    if c < ' ' {
      assert '0' <= HexDigit(c as int / 16) && '0' <= HexDigit(c as int % 16);
    }
  }

  lemma {:induction false} EscapePlain(s: string)
    ensures forall d :: d in Escape(s) ==> d >= ' '
  {
    if s != "" {
      EscapeCharPlain(s[0]);
      EscapePlain(s[1..]);
    }
  }

  lemma {:induction false} PrintPlain(j: Json, depth: nat)
    requires Printable(j, depth)
    ensures forall d :: d in Print(j) ==> d >= ' '
    decreases j, 0
  {
    match j
    case Null =>
    case Bool(b) =>
    case Num(lexeme) =>
      IntLexemeChars(lexeme);
    case Str(s) => EscapePlain(s);
    case Arr(items) => PrintItemsPlain(items, depth - 1);
    case Obj(members) => PrintMembersPlain(members, depth - 1);
  }

  lemma {:induction false} PrintItemsPlain(items: Items, depth: nat)
    requires PrintableItems(items, depth)
    ensures forall d :: d in PrintItems(items) ==> d >= ' '
    decreases items, 1
  {
    if items.Item? {
      PrintPlain(items.head, depth);
      PrintItemsPlain(items.tail, depth);
    }
  }

  lemma {:induction false} PrintMembersPlain(members: Members, depth: nat)
    requires PrintableMembers(members, depth)
    ensures forall d :: d in PrintMembers(members) ==> d >= ' '
    decreases members, 1
  {
    if members.Member? {
      EscapePlain(members.key);
      PrintPlain(members.value, depth);
      PrintMembersPlain(members.rest, depth);
    }
  }

  /** A printed object stays one line when text is cut into lines. */
  lemma PrintedObjectIsPlainLine(j: Json)
    requires j.Obj? && Printable(j, RECURSION_LIMIT)
    ensures PlainLine(Print(j)) && Print(j) != ""
  {
    PrintPlain(j, RECURSION_LIMIT);
  }
}
