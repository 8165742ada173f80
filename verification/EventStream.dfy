/** The framing that both event-stream parsers share: a buffer that grows by
    chunks, is cut at its leftmost blank line, and is drained event by event.
    What a stream means does not depend on how it was cut into chunks. */
module EventStream {
  import opened Text

  /** The leftmost place of two newlines in a row. */
  function FindBlank(s: string): (r: Option<nat>)
    ensures r.Some? ==> r.value + 2 <= |s|
  {
    if |s| < 2 then None
    else if s[0] == '\n' && s[1] == '\n' then Some(0)
    else
      match FindBlank(s[1..])
      case None => None
      case Some(p) => Some(p + 1)
  }

  const DATA := "data: "

  /** What the data lines of an event carry, in order. */
  function Payloads(lines: seq<string>): seq<string> {
    if lines == [] then []
    else (if DATA <= lines[0] then [lines[0][|DATA|..]] else []) + Payloads(lines[1..])
  }

  /** How a parser takes one payload: it goes on, or the stream is over for it. */
  datatype Reaction<S, R> = Go(state: S) | Stop(result: R)

  function React<S, R>(f: (S, string) -> Reaction<S, R>, st: S, payloads: seq<string>): Reaction<S, R> {
    if payloads == [] then Go(st)
    else
      match f(st, payloads[0])
      case Stop(r) => Stop(r)
      case Go(st2) => React(f, st2, payloads[1..])
  }

  datatype Progress<S, R> = Pending(state: S, buffer: string) | Finished(result: R)

  /** Take every complete event of a buffer and leave what follows the last one. */
  function Drain<S, R>(f: (S, string) -> Reaction<S, R>, st: S, buffer: string): Progress<S, R>
    decreases |buffer|
  {
    match FindBlank(buffer)
    case None => Pending(st, buffer)
    case Some(p) =>
      match React(f, st, Payloads(Lines(buffer[..p])))
      case Stop(r) => Finished(r)
      case Go(st2) => Drain(f, st2, buffer[p + 2..])
  }

  // ------------------------------------------------- the stream read all at once

  /** The complete events of a whole text. */
  function Events(text: string): seq<string>
    decreases |text|
  {
    match FindBlank(text)
    case None => []
    case Some(p) => [text[..p]] + Events(text[p + 2..])
  }

  /** What follows the last complete event. */
  function Tail(text: string): string
    decreases |text|
  {
    match FindBlank(text)
    case None => text
    case Some(p) => Tail(text[p + 2..])
  }

  function AllPayloads(events: seq<string>): seq<string> {
    if events == [] then [] else Payloads(Lines(events[0])) + AllPayloads(events[1..])
  }

  /** What a whole text means: its payloads one after another up to the first
      that ends the stream, and nothing of an unterminated tail. */
  function Meaning<S, R>(f: (S, string) -> Reaction<S, R>, st: S, text: string): Reaction<S, R> {
    React(f, st, AllPayloads(Events(text)))
  }

  function Join(chunks: seq<string>): string {
    if chunks == [] then "" else Join(chunks[..|chunks| - 1]) + chunks[|chunks| - 1]
  }

  // ------------------------------------------------------------ what framing means

  lemma {:induction false} BlankIsLeftmost(s: string)
    ensures match FindBlank(s)
      case Some(p) => s[p] == s[p + 1] == '\n' && forall q :: 0 <= q < p ==> !(s[q] == '\n' && s[q + 1] == '\n')
      case None => forall q :: 0 <= q < |s| - 1 ==> !(s[q] == '\n' && s[q + 1] == '\n')
  {
    if |s| >= 2 {
      BlankIsLeftmost(s[1..]);
      assert forall q :: 0 < q < |s| ==> s[q] == s[1..][q - 1];
    }
  }

  /** Text up to the first blank line is an event, and the events of what follows
      come after it. */
  lemma EventsCut(text: string, p: nat)
    requires p + 2 <= |text| && text[p] == text[p + 1] == '\n'
    requires forall q :: 0 <= q < p ==> !(text[q] == '\n' && text[q + 1] == '\n')
    ensures Events(text) == [text[..p]] + Events(text[p + 2..])
  {
    BlankIsLeftmost(text);
  }

  /** Text without a blank line holds no event. */
  lemma NoEvents(text: string)
    requires forall q :: 0 <= q < |text| - 1 ==> !(text[q] == '\n' && text[q + 1] == '\n')
    ensures Events(text) == []
  {
    BlankIsLeftmost(text);
  }

  /** The lines of an event that begin with "data: " carry what follows it. */
  lemma {:induction false} PayloadsOfLine(lines: seq<string>, l: string)
    ensures Payloads(lines + [l]) == Payloads(lines) + if "data: " <= l then [l[6..]] else []
  {
    if lines == [] {
      assert lines + [l] == [l] && [l][1..] == [];
    } else {
      PayloadsOfLine(lines[1..], l);
      assert (lines + [l])[1..] == lines[1..] + [l];
    }
  }

  // -------------------------------------------------------------- why they agree

  lemma {:induction false} ReactAppend<S, R>(f: (S, string) -> Reaction<S, R>, st: S, a: seq<string>, b: seq<string>)
    ensures React(f, st, a + b)
         == match React(f, st, a) case Stop(r) => Stop(r) case Go(st2) => React(f, st2, b)
    decreases |a|
  {
    if a == [] {
      assert a + b == b;
    } else {
      assert (a + b)[1..] == a[1..] + b;
      match f(st, a[0])
      case Stop(r) =>
      case Go(st2) => ReactAppend(f, st2, a[1..], b);
    }
  }

  /** Draining a buffer event by event is reading it all at once. */
  lemma {:induction false} DrainMeans<S, R>(f: (S, string) -> Reaction<S, R>, st: S, text: string)
    ensures match Meaning(f, st, text)
      case Stop(r) => Drain(f, st, text) == Finished(r)
      case Go(st2) => Drain(f, st, text) == Pending(st2, Tail(text))
    decreases |text|
  {
    match FindBlank(text)
    case None =>
    case Some(p) =>
      var first := Payloads(Lines(text[..p]));
      var rest := text[p + 2..];
      assert Events(text)[1..] == Events(rest);
      ReactAppend(f, st, first, AllPayloads(Events(rest)));
      match React(f, st, first)
      case Stop(r) =>
      case Go(st2) => DrainMeans(f, st2, rest);
  }

  lemma {:induction false} FindBlankAppend(s: string, t: string)
    requires FindBlank(s).Some?
    ensures FindBlank(s + t) == FindBlank(s)
  {
    if !(s[0] == '\n' && s[1] == '\n') {
      assert (s + t)[1..] == s[1..] + t;
      FindBlankAppend(s[1..], t);
    }
  }

  /** Draining what has come and then going on with the rest is draining the
      whole: more text changes nothing that was already taken or ended. */
  lemma {:induction false} DrainAppend<S, R>(f: (S, string) -> Reaction<S, R>, st: S, s: string, t: string)
    ensures Drain(f, st, s + t)
         == match Drain(f, st, s)
            case Finished(r) => Finished(r)
            case Pending(st2, buffer) => Drain(f, st2, buffer + t)
    decreases |s|
  {
    hide Lines, Payloads, React;
    match FindBlank(s)
    case None =>
    case Some(p) =>
      FindBlankAppend(s, t);
      assert (s + t)[..p] == s[..p] && (s + t)[p + 2..] == s[p + 2..] + t;
      match React(f, st, Payloads(Lines(s[..p])))
      case Stop(r) =>
      case Go(st2) => DrainAppend(f, st2, s[p + 2..], t);
  }

  lemma {:induction false} EventsAppend(s: string, t: string)
    ensures Events(s + t) == Events(s) + Events(Tail(s) + t)
    decreases |s|
  {
    match FindBlank(s)
    case None =>
    case Some(p) =>
      FindBlankAppend(s, t);
      assert (s + t)[..p] == s[..p] && (s + t)[p + 2..] == s[p + 2..] + t;
      var (rest, more) := (Events(s[p + 2..]), Events(Tail(s) + t));
      EventsAppend(s[p + 2..], t);
      assert [s[..p]] + (rest + more) == [s[..p]] + rest + more;
  }

  /** After complete events, text without a blank line says nothing. */
  lemma UnterminatedTailDropped<S, R>(f: (S, string) -> Reaction<S, R>, st: S, whole: string, tail: string)
    requires Tail(whole) == "" && FindBlank(tail) == None
    ensures Meaning(f, st, whole + tail) == Meaning(f, st, whole)
  {
    EventsAppend(whole, tail);
    assert "" + tail == tail;
    assert Events(whole) + [] == Events(whole);
  }
}
