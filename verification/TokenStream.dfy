/** The completion stream from end to end: the events that the server's handler
    writes for the tokens of a model, and what the client makes of them however
    the network cuts or ends the text. */
module TokenStream {
  import opened Text
  import opened Json
  import opened JsonProofs
  import opened EventStream
  import opened StreamParsers

  // ----------------------------------------------------------------- the handler

  /** What goes out before the end: a token, or a comment that keeps the
      connection alive. */
  datatype Sent = Token(content: string) | KeepAlive

  function TokenObject(content: string): Json {
    Obj(Member("content", Str(content), Member("kind", Str("token"), NoMembers)))
  }

  const DONE_OBJECT := Obj(Member("kind", Str("done"), NoMembers))

  function Event(data: string): string { DATA + data + "\n\n" }

  function Written(s: Sent): string {
    match s
    case Token(content) => Event(Print(TokenObject(content)))
    case KeepAlive => ":\n\n"
  }

  function WrittenAll(sent: seq<Sent>): string {
    if sent == [] then "" else Written(sent[0]) + WrittenAll(sent[1..])
  }

  lemma WrittenNext(sent: seq<Sent>, i: nat)
    requires i < |sent|
    ensures WrittenAll(sent[i..]) == Written(sent[i]) + WrittenAll(sent[i + 1..])
  {
    assert sent[i..][1..] == sent[i + 1..];
  }

  lemma WrittenNone(sent: seq<Sent>)
    requires sent == []
    ensures WrittenAll(sent) == ""
  {
  }

  /** How the generation behind a stream ended: well, with an error, or out of time. */
  datatype Outcome = Completed | GenerateFailed(message: string) | TimedOut

  /** What a generation hands to the handler before its channel closes, and how
      it ended. */
  datatype Generation = Generation(sent: seq<Sent>, outcome: Outcome)

  function StreamOf(g: Generation): string { WrittenAll(g.sent) + Event(Print(DONE_OBJECT)) }

  /** The handler's loop: each token as it comes, and `done` once no more come.
      A closed channel looks the same after every outcome. */
  method WriteStream(g: Generation) returns (text: string)
    ensures text == StreamOf(g)
  {
    hide Written, WrittenAll, Print;
    text := "";
    for i := 0 to |g.sent|
      invariant WrittenAll(g.sent) == text + WrittenAll(g.sent[i..])
    {
      WrittenNext(g.sent, i);
      text := text + Written(g.sent[i]);
    }
    WrittenNone(g.sent[|g.sent|..]);
    text := text + Event(Print(DONE_OBJECT));
  }

  function ContentOf(s: Sent): string { if s.Token? then s.content else "" }

  /** The tokens, joined. */
  function Contents(sent: seq<Sent>): string {
    if sent == [] then "" else ContentOf(sent[0]) + Contents(sent[1..])
  }

  // ------------------------------------------------------------------ the client

  function StringAt(j: Json, key: string): Option<string> {
    if j.Obj? then
      match Get(j.members, key)
      case Some(Str(s)) => Some(s)
      case _ => None
    else None
  }

  /** The client's lookups in a payload. */
  function ReadPayload(data: string): Value {
    match Parse(data)
    case None => NotJson
    case Some(j) => Value(StringAt(j, "kind"), StringAt(j, "content"), StringAt(j, "message"))
  }

  lemma TokenReads(content: string)
    ensures ReadPayload(Print(TokenObject(content))) == Value(Some("token"), Some(content), None)
    ensures '\n' !in Print(TokenObject(content)) && Print(TokenObject(content)) != ""
  {
    var j := TokenObject(content);
    TokenPrintable(content);
    DocumentRoundTrip(j);
    PrintedObjectIsPlainLine(j);
    TokenMembers(content);
    hide Print, Parse, Get, Printable, PlainLine;
  }

  lemma TokenPrintable(content: string)
    ensures Printable(TokenObject(content), RECURSION_LIMIT)
  {
    var (members, d) := (TokenObject(content).members, RECURSION_LIMIT - 1);
    assert Printable(Str(content), d) && Printable(Str("token"), d);
    assert PrintableMembers(members.rest, d);
    assert PrintableMembers(members, d);
  }

  lemma TokenMembers(content: string)
    ensures
      var members := TokenObject(content).members;
      Get(members, "kind") == Some(Str("token")) && Get(members, "content") == Some(Str(content)) &&
      Get(members, "message") == None
  {
    var members := TokenObject(content).members;
    assert Get(members.rest, "kind") == Some(Str("token"));
    assert Get(members.rest, "content") == None && Get(members.rest, "message") == None;
  }

  lemma DoneReads()
    ensures ReadPayload(Print(DONE_OBJECT)) == Value(Some("done"), None, None)
    ensures '\n' !in Print(DONE_OBJECT) && Print(DONE_OBJECT) != ""
  {
    assert Printable(DONE_OBJECT, RECURSION_LIMIT);
    DocumentRoundTrip(DONE_OBJECT);
    PrintedObjectIsPlainLine(DONE_OBJECT);
    hide Print, Parse;
  }

  predicate HasMember(payload: string, key: string, value: string) {
    && Parse(payload).Some? && Parse(payload).value.Obj?
    && Get(Parse(payload).value.members, key) == Some(Str(value))
  }

  /** What is on the wire: a data line with an object of a kind, and for a token
      with its content; or a comment. */
  lemma EventTexts(content: string) returns (token: string, done: string)
    ensures Written(Token(content)) == "data: " + token + "\n\n"
    ensures HasMember(token, "kind", "token") && HasMember(token, "content", content)
    ensures Event(Print(DONE_OBJECT)) == "data: " + done + "\n\n" && HasMember(done, "kind", "done")
    ensures Written(KeepAlive) == ":\n\n"
  {
    token, done := Print(TokenObject(content)), Print(DONE_OBJECT);
    TokenPrintable(content);
    TokenMembers(content);
    DocumentRoundTrip(TokenObject(content));
    assert Printable(DONE_OBJECT, RECURSION_LIMIT);
    DocumentRoundTrip(DONE_OBJECT);
    hide Print, Parse;
  }

  // --------------------------------------------------------- events one by one

  lemma {:induction false} FindBlankAt(line: string, rest: string)
    requires '\n' !in line
    ensures FindBlank(line + "\n\n" + rest) == Some(|line|)
  {
    var s := line + "\n\n" + rest;
    if line != "" {
      FindBlankAt(line[1..], rest);
      assert s[1..] == line[1..] + "\n\n" + rest;
      assert s[0] == line[0] && line[0] in line;
    }
  }

  lemma {:induction false} NoBlankYet(line: string, p: string)
    requires '\n' !in line && p < line + "\n\n"
    ensures FindBlank(p) == None
  {
    if |p| >= 2 {
      var s := line + "\n\n";
      assert p[0] == s[0] && p[1] == s[1];
      assert line == "" ==> |s| == 2;
      assert line[0] in line;
      assert s[1..] == line[1..] + "\n\n" && p[1..] < s[1..];
      NoBlankYet(line[1..], p[1..]);
    }
  }

  /** An event of one line goes through as one payload. */
  lemma OneLineEvent(line: string, rest: string)
    requires '\n' !in line && line != ""
    ensures AllPayloads(Events(line + "\n\n" + rest)) == Payloads([line]) + AllPayloads(Events(rest))
  {
    FindBlankAt(line, rest);
    var s := line + "\n\n" + rest;
    assert s[..|line|] == line && s[|line| + 2..] == rest;
    assert Events(s)[1..] == Events(rest);
    assert FindNewline(line) == None;
    assert Lines(line) == [line];
  }

  function LineOf(s: Sent): string {
    match s
    case Token(content) => DATA + Print(TokenObject(content))
    case KeepAlive => ":"
  }

  function PayloadOf(s: Sent): seq<string> {
    match s
    case Token(content) => [Print(TokenObject(content))]
    case KeepAlive => []
  }

  lemma WrittenLine(s: Sent)
    ensures Written(s) == LineOf(s) + "\n\n"
    ensures '\n' !in LineOf(s) && LineOf(s) != ""
    ensures Payloads([LineOf(s)]) == PayloadOf(s)
  {
    if s.Token? {
      TokenReads(s.content);
      hide Print;
      DataPayload(Print(TokenObject(s.content)));
    } else {
      assert [":"][1..] == [];
    }
  }

  lemma DataPayload(data: string)
    ensures Payloads([DATA + data]) == [data]
  {
    var l := DATA + data;
    var none: seq<string> := [l][1..];
    assert none == [] && l[|DATA|..] == data;
  }

  function PayloadsOf(sent: seq<Sent>): seq<string> {
    if sent == [] then [] else PayloadOf(sent[0]) + PayloadsOf(sent[1..])
  }

  lemma FirstWritten(sent: seq<Sent>, rest: string)
    requires sent != []
    ensures WrittenAll(sent) + rest == LineOf(sent[0]) + "\n\n" + (WrittenAll(sent[1..]) + rest)
  {
    WrittenLine(sent[0]);
    hide Written, LineOf;
  }

  lemma JoinedTwice(a: seq<string>, b: seq<string>, c: seq<string>)
    ensures a + (b + c) == a + b + c
  {
  }

  lemma {:induction false} WrittenPayloads(sent: seq<Sent>, rest: string)
    ensures AllPayloads(Events(WrittenAll(sent) + rest)) == PayloadsOf(sent) + AllPayloads(Events(rest))
  {
    if sent == [] {
      assert WrittenAll(sent) + rest == rest;
    } else {
      WrittenPayloads(sent[1..], rest);
      WrittenLine(sent[0]);
      OneLineEvent(LineOf(sent[0]), WrittenAll(sent[1..]) + rest);
      FirstWritten(sent, rest);
      assert PayloadsOf(sent) == PayloadOf(sent[0]) + PayloadsOf(sent[1..]);
      JoinedTwice(PayloadOf(sent[0]), PayloadsOf(sent[1..]), AllPayloads(Events(rest)));
      hide *;
    }
  }

  lemma TokenTaken(content: string, output: string, rest: seq<string>)
    ensures React(ClientReact(ReadPayload), output, PayloadOf(Token(content)) + rest)
         == React(ClientReact(ReadPayload), output + content, rest)
  {
    TokenReads(content);
    var payload := Print(TokenObject(content));
    hide Print, ReadPayload;
    assert PayloadOf(Token(content)) + rest == [payload] + rest;
    assert ([payload] + rest)[1..] == rest;
  }

  lemma {:induction false} TokensCollected(sent: seq<Sent>, output: string, more: seq<string>)
    ensures React(ClientReact(ReadPayload), output, PayloadsOf(sent) + more)
         == React(ClientReact(ReadPayload), output + Contents(sent), more)
  {
    hide ClientReact, ReadPayload, React, Print;
    if sent == [] {
      assert PayloadsOf(sent) + more == more && output + "" == output;
    } else {
      var rest := PayloadsOf(sent[1..]) + more;
      JoinedTwice(PayloadOf(sent[0]), PayloadsOf(sent[1..]), more);
      JoinedThrice(output, ContentOf(sent[0]), Contents(sent[1..]));
      match sent[0] {
        case KeepAlive =>
          assert PayloadOf(sent[0]) + rest == rest && output + "" == output;
        case Token(content) => TokenTaken(content, output, rest);
      }
      TokensCollected(sent[1..], output + ContentOf(sent[0]), more);
    }
  }

  lemma DoneEndsEvents(after: string)
    ensures AllPayloads(Events(Event(Print(DONE_OBJECT)) + after)) == [Print(DONE_OBJECT)] + AllPayloads(Events(after))
  {
    DoneReads();
    var done := Print(DONE_OBJECT);
    hide Print;
    OneLineEvent(DATA + done, after);
    assert DATA + done + "\n\n" + after == Event(done) + after;
    DataPayload(done);
  }

  lemma DoneStops(output: string, more: seq<string>)
    ensures React(ClientReact(ReadPayload), output, [Print(DONE_OBJECT)] + more) == Stop(Ok(output))
  {
    DoneReads();
    hide Print, ReadPayload;
  }

  // ---------------------------------------------------------------- end to end

  /** The client answers with exactly the tokens of the stream, joined: whatever
      keep-alives lie between them, whatever follows `done`, and however the text
      is cut into chunks. */
  lemma StreamDelivered(g: Generation, after: string, chunks: seq<string>, broken: bool)
    requires Join(chunks) == StreamOf(g) + after
    ensures ClientAnswer(ReadPayload, Join(chunks), broken) == Ok(Contents(g.sent))
  {
    var sent := g.sent;
    var done := Print(DONE_OBJECT);
    hide Print;
    WrittenPayloads(sent, Event(done) + after);
    DoneEndsEvents(after);
    TokensCollected(sent, "", [done] + AllPayloads(Events(after)));
    DoneStops(Contents(sent), AllPayloads(Events(after)));
    hide ClientReact, WrittenAll, Event, Events, AllPayloads, PayloadsOf, Contents, ReadPayload, Join;
    assert WrittenAll(sent) + (Event(done) + after) == Join(chunks);
    assert "" + Contents(sent) == Contents(sent);
  }

  /** How many events of the stream a prefix of it holds whole. */
  lemma {:induction false} WholeEvents(sent: seq<Sent>, p: string) returns (n: nat)
    requires p <= WrittenAll(sent)
    ensures n <= |sent| && WrittenAll(sent[..n]) <= p
    ensures n < |sent| ==> !(WrittenAll(sent[..n + 1]) <= p)
    ensures FindBlank(p[|WrittenAll(sent[..n])|..]) == None
    decreases |sent|
  {
    hide Written, WrittenAll, FindBlank, LineOf;
    WrittenNone([]);
    if sent == [] {
      n := 0;
    } else {
      var first := Written(sent[0]);
      FirstEvents(sent, 0);
      if first <= p {
        var q := p[|first|..];
        assert p == first + q && q <= WrittenAll(sent[1..]);
        var m := WholeEvents(sent[1..], q);
        n := m + 1;
        FirstEvents(sent, m);
        PrefixShift(first, WrittenAll(sent[1..][..m]), q);
        if n < |sent| {
          FirstEvents(sent, m + 1);
          PrefixShift(first, WrittenAll(sent[1..][..m + 1]), q);
        }
      } else {
        n := 0;
        WrittenLine(sent[0]);
        assert p < first;
        NoBlankYet(LineOf(sent[0]), p);
        assert p[0..] == p;
      }
    }
  }

  lemma PrefixShift(first: string, w: string, q: string)
    ensures first + w <= first + q <==> w <= q
    ensures w <= q ==> (first + q)[|first + w|..] == q[|w|..]
  {
    if first + w <= first + q {
      assert (first + w)[|first|..] == w && (first + q)[|first|..] == q;
    }
  }

  lemma FirstEvents(sent: seq<Sent>, m: nat)
    requires m < |sent|
    ensures WrittenAll(sent[..m + 1]) == Written(sent[0]) + WrittenAll(sent[1..][..m])
    ensures WrittenAll(sent[..0]) == "" && WrittenAll(sent) == Written(sent[0]) + WrittenAll(sent[1..])
  {
    assert sent[..m + 1][1..] == sent[1..][..m];
  }

  /** Where a stream that ends early was cut: after `n` whole events, and before
      the end of another. */
  lemma CutPlace(sent: seq<Sent>, p: string) returns (n: nat)
    requires p < WrittenAll(sent) + Event(Print(DONE_OBJECT))
    ensures n <= |sent| && WrittenAll(sent[..n]) <= p
    ensures n < |sent| ==> !(WrittenAll(sent[..n + 1]) <= p)
    ensures FindBlank(p[|WrittenAll(sent[..n])|..]) == None
  {
    DoneReads();
    hide Print, FindBlank;
    if p <= WrittenAll(sent) {
      n := WholeEvents(sent, p);
    } else {
      n := |sent|;
      assert sent[..n] == sent;
      NoBlankYet(DATA + Print(DONE_OBJECT), p[|WrittenAll(sent)|..]);
    }
  }

  lemma UnfinishedAnswer(sent: seq<Sent>, tail: string, broken: bool)
    requires FindBlank(tail) == None
    ensures ClientAnswer(ReadPayload, WrittenAll(sent) + tail, broken) ==
      if broken then Err(BrokenStream) else Ok(Contents(sent))
  {
    WrittenPayloads(sent, tail);
    TokensCollected(sent, "", []);
    assert AllPayloads(Events(tail)) == [];
    hide FindBlank, WrittenAll, ClientReact, PayloadsOf, Events, AllPayloads, Contents;
    assert "" + Contents(sent) == Contents(sent);
  }

  lemma Rejoin(whole: string, p: string)
    requires whole <= p
    ensures whole + p[|whole|..] == p
  {
  }

  /** A stream that ends early is an error if the transport says so. If it does
      not, it is an answer: the tokens of the events that came whole. */
  lemma CutStreamAnswers(g: Generation, p: string, broken: bool) returns (n: nat)
    requires p < StreamOf(g)
    ensures n <= |g.sent| && WrittenAll(g.sent[..n]) <= p
    ensures n < |g.sent| ==> !(WrittenAll(g.sent[..n + 1]) <= p)
    ensures ClientAnswer(ReadPayload, p, broken) == if broken then Err(BrokenStream) else Ok(Contents(g.sent[..n]))
  {
    n := CutPlace(g.sent, p);
    var whole := WrittenAll(g.sent[..n]);
    UnfinishedAnswer(g.sent[..n], p[|whole|..], broken);
    Rejoin(whole, p);
    hide *;
  }

  /** The client reports an error exactly when the transport breaks before the
      whole stream has come, whatever the outcome of the generation. */
  lemma ErrorExactly(g: Generation, p: string, broken: bool)
    requires p <= StreamOf(g)
    ensures ClientAnswer(ReadPayload, p, broken).Err? <==> p != StreamOf(g) && broken
  {
    hide StreamOf, ClientAnswer;
    if p == StreamOf(g) {
      assert Join([p]) == p by {
        assert Join([p]) == Join([p][..0]) + p;
      }
      assert StreamOf(g) + "" == p;
      StreamDelivered(g, "", [p], broken);
    } else {
      var n := CutStreamAnswers(g, p, broken);
    }
  }

  /** A generation that does not end well is to be reported as an error. */
  predicate FailureReported(g: Generation, p: string, broken: bool) {
    !g.outcome.Completed? ==> ClientAnswer(ReadPayload, p, broken).Err?
  }

  /** That is met exactly if there is nothing to report, or the transport happens
      to break early. */
  lemma FailureReportedExactly(g: Generation, p: string, broken: bool)
    requires p <= StreamOf(g)
    ensures FailureReported(g, p, broken) <==> g.outcome.Completed? || (p != StreamOf(g) && broken)
  {
    ErrorExactly(g, p, broken);
  }

  /** A generation that fails after a token is answered with that token. */
  lemma FailureUnreported()
    ensures
      var g := Generation([Token("a")], GenerateFailed("overloaded"));
      ClientAnswer(ReadPayload, StreamOf(g), false) == Ok("a") && !FailureReported(g, StreamOf(g), false)
  {
    var g := Generation([Token("a")], GenerateFailed("overloaded"));
    var text := StreamOf(g);
    hide StreamOf, ClientAnswer;
    assert Join([text]) == text by {
      assert Join([text]) == Join([text][..0]) + text;
    }
    assert text + "" == text;
    StreamDelivered(g, "", [text], false);
    assert Contents(g.sent) == "a" by {
      assert Contents(g.sent) == "a" + Contents(g.sent[1..]) && g.sent[1..] == [];
    }
  }

  // ------------------------------------------------- from upstream to the client

  lemma JoinedThrice(a: string, b: string, c: string)
    ensures a + (b + c) == a + b + c
    ensures b == "" ==> a + b == a
  {
  }

  /** The tokens as the handler gets them, one event each. */
  function AsTokens(sent: seq<string>): (r: seq<Sent>)
    ensures |r| == |sent|
  {
    seq(|sent|, i requires 0 <= i < |sent| => Token(sent[i]))
  }

  lemma {:induction false} ContentsSnoc(sent: seq<Sent>, s: Sent)
    ensures Contents(sent + [s]) == Contents(sent) + ContentOf(s)
  {
    hide ContentOf;
    if sent == [] {
      assert [s][1..] == [] && sent + [s] == [s];
      JoinedThrice(ContentOf(s), "", "");
    } else {
      assert (sent + [s])[1..] == sent[1..] + [s];
      ContentsSnoc(sent[1..], s);
      JoinedThrice(ContentOf(sent[0]), Contents(sent[1..]), ContentOf(s));
    }
  }

  lemma {:induction false} ContentsOfTokens(sent: seq<string>)
    ensures Contents(AsTokens(sent)) == Join(sent)
  {
    if sent != [] {
      var (init, t) := (sent[..|sent| - 1], sent[|sent| - 1]);
      ContentsOfTokens(init);
      assert AsTokens(sent) == AsTokens(init) + [Token(t)];
      ContentsSnoc(AsTokens(init), Token(t));
    }
  }

  /** A completion from end to end: the upstream's chunks relayed, written as
      events, cut again by the network, and read by the client. The client
      answers with the upstream's contents, whichever way either text was cut,
      and also if the upstream broke off. */
  method RelayToClient(parse: string -> Option<seq<Choice>>, upstream: seq<string>, upstreamBroken: bool,
                  cut: string -> seq<string>, broken: bool) returns (r: Result<string, Failure>)
    requires forall t :: Join(cut(t)) == t
    ensures r == Ok(Join(TokensAmong(UpstreamChoices(parse, AllPayloads(Events(Join(upstream)))))))
  {
    hide ClientAnswer, StreamOf, UpstreamChoices, TokensAmong, ServerOutcome, Contents, AllPayloads, Events, Reasons;
    var relayed, sent := RelayTokens(parse, None, upstream, upstreamBroken);
    var outcome := if relayed.Err? then GenerateFailed("reading the upstream's stream") else Completed;
    var g := Generation(AsTokens(sent), outcome);
    var text := WriteStream(g);
    r := LlmComplete(ReadPayload, cut(text), broken);
    assert StreamOf(g) + "" == text;
    StreamDelivered(g, "", cut(text), broken);
    ContentsOfTokens(sent);
  }
}
