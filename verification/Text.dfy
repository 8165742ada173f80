/** Shared vocabulary: optional values, the string operations of the source
    language that the other modules need, and decimal numbers. */
module Text {

  datatype Option<+T> = None | Some(value: T)

  datatype Result<+T, +E> = Ok(value: T) | Err(error: E)

  /** The position of the first newline, if there is one. */
  function FindNewline(s: string): (r: Option<nat>)
    ensures r.None? ==> '\n' !in s
    ensures r.Some? ==> r.value < |s| && s[r.value] == '\n' && '\n' !in s[..r.value]
  {
    if s == "" then None
    else if s[0] == '\n' then Some(0)
    else
      match FindNewline(s[1..])
      case None => None
      case Some(p) =>
        assert s[..p + 1] == [s[0]] + s[1..][..p];
        Some(p + 1)
  }

  function StripCarriageReturn(s: string): string {
    if s != "" && s[|s| - 1] == '\r' then s[..|s| - 1] else s
  }

  /** `str::lines`: a line ends at "\n" or "\r\n"; the last line needs no end,
      and a carriage return that no newline follows belongs to its line. */
  function Lines(s: string): seq<string>
    decreases |s|
  {
    if s == "" then []
    else
      match FindNewline(s)
      case None => [s]
      case Some(p) => [StripCarriageReturn(s[..p])] + Lines(s[p + 1..])
  }

  /** A line as a writer emits it: nothing in it that `Lines` would act on. */
  predicate PlainLine(l: string) {
    '\n' !in l && (l == "" || l[|l| - 1] != '\r')
  }

  function Unlines(ls: seq<string>): string {
    if ls == [] then "" else ls[0] + "\n" + Unlines(ls[1..])
  }

  lemma FindNewlineAt(l: string, rest: string)
    requires '\n' !in l
    ensures FindNewline(l + "\n" + rest) == Some(|l|)
  {
    var s := l + "\n" + rest;
    assert s[|l|] == '\n';
    assert forall i :: 0 <= i < |l| ==> s[i] == l[i];
  }

  lemma LinesStep(l: string, rest: string)
    requires PlainLine(l)
    ensures Lines(l + "\n" + rest) == [l] + Lines(rest)
  {
    FindNewlineAt(l, rest);
    var s := l + "\n" + rest;
    assert s[..|l|] == l;
    assert s[|l| + 1..] == rest;
    assert StripCarriageReturn(l) == l;
    hide FindNewline, StripCarriageReturn, PlainLine;
  }

  /** A line may also end in a carriage return and a newline; a carriage return
      that no newline follows stays. */
  lemma LinesCut(l: string, rest: string)
    requires '\n' !in l
    ensures Lines(l + "\r\n" + rest) == [l] + Lines(rest)
    ensures l != "" ==> Lines(l) == [l]
  {
    var ended := l + "\r";
    assert l + "\r\n" + rest == ended + "\n" + rest;
    FindNewlineAt(ended, rest);
    var s := ended + "\n" + rest;
    assert s[..|ended|] == ended && s[|ended| + 1..] == rest && ended[..|l|] == l;
    assert FindNewline(l).None?;
    hide FindNewline;
  }

  /** Cutting text into lines undoes writing lines one after another; `tail`
      is an unfinished last line. */
  lemma {:induction false} LinesOfUnlines(ls: seq<string>, tail: string)
    requires forall l :: l in ls ==> PlainLine(l)
    requires '\n' !in tail
    ensures Lines(Unlines(ls) + tail) == if tail == "" then ls else ls + [tail]
  {
    LinesOfTail(tail);
    hide Lines, PlainLine;
    if ls == [] {
      assert Unlines(ls) + tail == tail;
    } else {
      var rest := Unlines(ls[1..]) + tail;
      LinesOfUnlines(ls[1..], tail);
      UnlinesFirst(ls, tail);
      LinesStep(ls[0], rest);
      hide Unlines;
      assert [ls[0]] + ls[1..] == ls;
      assert [ls[0]] + (ls[1..] + [tail]) == ls + [tail];
    }
  }

  lemma LinesOfTail(tail: string)
    requires '\n' !in tail
    ensures Lines(tail) == if tail == "" then [] else [tail]
  {
  }

  lemma UnlinesFirst(ls: seq<string>, tail: string)
    requires ls != []
    ensures Unlines(ls) + tail == ls[0] + "\n" + (Unlines(ls[1..]) + tail)
  {
  }

  lemma {:induction false} UnlinesAppend(a: seq<string>, b: seq<string>)
    ensures Unlines(a + b) == Unlines(a) + Unlines(b)
  {
    if a == [] {
      assert a + b == b;
    } else {
      UnlinesAppend(a[1..], b);
      UnlinesFirst(a, Unlines(b));
      assert (a + b)[1..] == a[1..] + b;
    }
  }

  /** Code point order, which is how the source language orders strings. */
  predicate StringLess(a: string, b: string) {
    b != "" && (a == "" || a[0] < b[0] || (a[0] == b[0] && StringLess(a[1..], b[1..])))
  }

  /** A string comes before another at the first place where they differ, by the
      smaller character there, and before its own continuations. */
  lemma {:induction false} StringLessAt(p: string, c: char, a: string, d: char, b: string)
    requires c < d
    ensures StringLess(p + [c] + a, p + [d] + b) && StringLess(p, p + [c] + a)
  {
    if p != "" {
      StringLessAt(p[1..], c, a, d, b);
      assert (p + [c] + a)[1..] == p[1..] + [c] + a && (p + [d] + b)[1..] == p[1..] + [d] + b;
    }
  }

  lemma {:induction false} StringLessTotal(a: string, b: string)
    ensures a == b || StringLess(a, b) || StringLess(b, a)
    ensures !(StringLess(a, b) && StringLess(b, a))
    ensures a == b ==> !StringLess(a, b)
  {
    if a != "" && b != "" && a[0] == b[0] {
      StringLessTotal(a[1..], b[1..]);
      assert a == [a[0]] + a[1..] && b == [b[0]] + b[1..];
    }
  }

  lemma {:induction false} StringLessTransitive(a: string, b: string, c: string)
    requires StringLess(a, b) && StringLess(b, c)
    ensures StringLess(a, c)
  {
    if a != "" && a[0] == b[0] == c[0] {
      StringLessTransitive(a[1..], b[1..], c[1..]);
    }
  }

  // ---------------------------------------------------------- decimal numbers

  predicate IsDigit(c: char) { '0' <= c <= '9' }

  function HexDigit(d: nat): char
    requires d < 16
  {
    if d < 10 then '0' + d as char else 'a' + (d - 10) as char
  }

  function DigitChar(d: nat): char
    requires d < 10
  {
    '0' + d as char
  }

  function DigitValue(c: char): nat
    requires IsDigit(c)
  {
    c as int - '0' as int
  }

  function NatToString(n: nat): (s: string)
    ensures s != "" && (forall c :: c in s ==> IsDigit(c))
    ensures s[0] == '0' ==> n == 0 && s == "0"
  {
    if n < 10 then [DigitChar(n)] else NatToString(n / 10) + [DigitChar(n % 10)]
  }

  function StringToNat(s: string): nat
    requires forall c :: c in s ==> IsDigit(c)
  {
    if s == "" then 0
    else 10 * StringToNat(s[..|s| - 1]) + DigitValue(s[|s| - 1])
  }

  lemma {:induction false} NatRoundTrip(n: nat)
    ensures StringToNat(NatToString(n)) == n
  {
    var s := NatToString(n);
    if n >= 10 {
      NatRoundTrip(n / 10);
      assert s[..|s| - 1] == NatToString(n / 10);
    } else {
      assert s[..0] == "";
      assert StringToNat(s) == 10 * StringToNat(s[..0]) + DigitValue(s[0]);
    }
  }

  function IntToString(n: int): string {
    if n < 0 then "-" + NatToString(-n) else NatToString(n)
  }

  lemma IntToStringInjective(a: int, b: int)
    requires IntToString(a) == IntToString(b)
    ensures a == b
  {
    hide NatToString, StringToNat;
    SignOfInt(a);
    SignOfInt(b);
    NatRoundTrip(if a < 0 then -a else a);
    NatRoundTrip(if b < 0 then -b else b);
    if a < 0 {
      assert IntToString(a)[1..] == NatToString(-a) && IntToString(b)[1..] == NatToString(-b);
    }
  }

  lemma SignOfInt(n: int)
    ensures IntToString(n) != "" && (IntToString(n)[0] == '-' <==> n < 0)
  {
    assert NatToString(if n < 0 then -n else n)[0] in NatToString(if n < 0 then -n else n);
  }
}
