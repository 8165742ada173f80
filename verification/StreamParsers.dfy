/** The two parsers of the completion stream: the client, which joins tokens
    into one answer, and the server, which relays an upstream model's tokens.
    Each is the loop over network chunks that the program runs, proved to give
    what the whole text means. */
module StreamParsers {
  import opened Text
  import opened EventStream

  lemma JoinNext(chunks: seq<string>, i: nat)
    requires i < |chunks|
    ensures Join(chunks[..i + 1]) == Join(chunks[..i]) + chunks[i]
  {
    assert chunks[..i + 1][..i] == chunks[..i];
  }

  lemma {:induction false} JoinAppend(a: seq<string>, b: seq<string>)
    ensures Join(a + b) == Join(a) + Join(b)
  {
    if b == [] {
      assert a + b == a;
    } else {
      assert (a + b)[..|a + b| - 1] == a + b[..|b| - 1];
      JoinAppend(a, b[..|b| - 1]);
    }
  }

  /** A stream that is over after some chunks stays over, whatever follows. */
  lemma OverStaysOver<S, R>(f: (S, string) -> Reaction<S, R>, st: S, chunks: seq<string>, i: nat)
    requires i <= |chunks| && Drain(f, st, Join(chunks[..i])).Finished?
    ensures Drain(f, st, Join(chunks)) == Drain(f, st, Join(chunks[..i]))
  {
    assert chunks[..i] + chunks[i..] == chunks;
    JoinAppend(chunks[..i], chunks[i..]);
    DrainAppend(f, st, Join(chunks[..i]), Join(chunks[i..]));
  }

  /** One line of an event, as part of reacting to all of its lines. */
  lemma PayloadsNext<S, R>(f: (S, string) -> Reaction<S, R>, st: S, lines: seq<string>)
    requires lines != []
    ensures !(DATA <= lines[0]) ==> React(f, st, Payloads(lines)) == React(f, st, Payloads(lines[1..]))
    ensures DATA <= lines[0] ==>
      React(f, st, Payloads(lines)) ==
        match f(st, lines[0][|DATA|..]) case Stop(r) => Stop(r) case Go(st2) => React(f, st2, Payloads(lines[1..]))
  {
    if DATA <= lines[0] {
      assert Payloads(lines)[1..] == Payloads(lines[1..]);
    } else {
      assert Payloads(lines) == Payloads(lines[1..]);
    }
  }

  datatype Failure = BrokenStream | StreamError(message: string)

  // ------------------------------------------------------------------ the client

  /** The members the client looks up in a payload, if it is JSON at all. */
  datatype Value = NotJson | Value(kind: Option<string>, content: Option<string>, message: Option<string>)

  type ClientReaction = Reaction<string, Result<string, Failure>>

  function ClientReact(parse: string -> Value): (string, string) -> ClientReaction {
    (output: string, payload: string) =>
      if payload == "" then Go(output)
      else
        match parse(payload)
        case NotJson => Go(output)
        case Value(kind, content, message) =>
          if kind == Some("token") then Go(if content.Some? then output + content.value else output)
          else if kind == Some("done") then Stop(Ok(output))
          else if kind == Some("error") then
            Stop(Err(StreamError(if message.Some? then message.value else "unknown error")))
          else Go(output)
  }

  /** The answer a whole text gives; `broken` says that reading failed after it. */
  function ClientAnswer(parse: string -> Value, text: string, broken: bool): Result<string, Failure> {
    match Meaning(ClientReact(parse), "", text)
    case Stop(r) => r
    case Go(output) => if broken then Err(BrokenStream) else Ok(output)
  }

  /** Whether a payload is an object of a kind; what is no JSON is of none. */
  predicate IsKind(parse: string -> Value, payload: string, kind: string) {
    payload != "" && parse(payload).Value? && parse(payload).kind == Some(kind)
  }

  /** The contents of the tokens among some payloads, joined. */
  function TokenText(parse: string -> Value, payloads: seq<string>): string {
    if payloads == [] then ""
    else
      TokenText(parse, payloads[..|payloads| - 1])
      + (var last := payloads[|payloads| - 1];
         if IsKind(parse, last, "token") && parse(last).content.Some? then parse(last).content.value else "")
  }

  /** An answer after `n` payloads: at the first `done` or `error`, or at the end. */
  predicate AnswersAfter(parse: string -> Value, payloads: seq<string>, broken: bool, n: nat,
                         r: Result<string, Failure>)
  {
    && n <= |payloads|
    && (forall i :: 0 <= i < n ==> !IsKind(parse, payloads[i], "done") && !IsKind(parse, payloads[i], "error"))
    && if n == |payloads| then r == if broken then Err(BrokenStream) else Ok(TokenText(parse, payloads))
       else if IsKind(parse, payloads[n], "done") then r == Ok(TokenText(parse, payloads[..n]))
       else
         && IsKind(parse, payloads[n], "error")
         && r == Err(StreamError(if parse(payloads[n]).message.Some? then parse(payloads[n]).message.value
                                 else "unknown error"))
  }

  lemma {:induction false} ClientReactMeans(parse: string -> Value, payloads: seq<string>) returns (n: nat)
    ensures n <= |payloads|
    ensures forall i :: 0 <= i < n ==> !IsKind(parse, payloads[i], "done") && !IsKind(parse, payloads[i], "error")
    ensures match React(ClientReact(parse), "", payloads)
      case Go(output) => n == |payloads| && output == TokenText(parse, payloads)
      case Stop(r) => n < |payloads| && AnswersAfter(parse, payloads, false, n, r)
  {
    if payloads == [] {
      n := 0;
    } else {
      var (init, last) := (payloads[..|payloads| - 1], payloads[|payloads| - 1]);
      n := ClientReactMeans(parse, init);
      assert payloads == init + [last];
      ReactAppend(ClientReact(parse), "", init, [last]);
      if React(ClientReact(parse), "", init).Go? {
        var output := React(ClientReact(parse), "", init).state;
        assert React(ClientReact(parse), output, [last]) == ClientReact(parse)(output, last) by {
          assert [last][1..] == [];
        }
        if ClientReact(parse)(output, last).Go? {
          n := |payloads|;
        }
      } else {
        assert payloads[..n] == init[..n];
      }
    }
  }

  lemma ClientAnswerMeans(parse: string -> Value, text: string, broken: bool)
    ensures exists n :: AnswersAfter(parse, AllPayloads(Events(text)), broken, n, ClientAnswer(parse, text, broken))
  {
    var n := ClientReactMeans(parse, AllPayloads(Events(text)));
    assert AnswersAfter(parse, AllPayloads(Events(text)), broken, n, ClientAnswer(parse, text, broken));
  }

  /** The lines of one event; `None` while the stream goes on. */
  method ClientEvent(parse: string -> Value, output: string, lines: seq<string>)
    returns (answer: Option<Result<string, Failure>>, output': string)
    ensures React(ClientReact(parse), output, Payloads(lines))
         == if answer.Some? then Stop(answer.value) else Go(output')
  {
    ghost var f := ClientReact(parse);
    output' := output;
    for i := 0 to |lines|
      invariant React(f, output, Payloads(lines)) == React(f, output', Payloads(lines[i..]))
    {
      PayloadsNext(f, output', lines[i..]);
      assert lines[i..][1..] == lines[i + 1..];
      if !(DATA <= lines[i]) {
        continue;
      }
      var data := lines[i][|DATA|..];
      if data == "" {
        continue;
      }
      var value := parse(data);
      if value.NotJson? {
        continue;
      }
      if value.kind == Some("token") {
        if value.content.Some? {
          output' := output' + value.content.value;
        }
      } else if value.kind == Some("done") {
        return Some(Ok(output')), output';
      } else if value.kind == Some("error") {
        return Some(Err(StreamError(if value.message.Some? then value.message.value else "unknown error"))), output';
      }
    }
    return None, output';
  }

  /** The client's loop over the chunks of a response. */
  method LlmComplete(parse: string -> Value, chunks: seq<string>, broken: bool) returns (r: Result<string, Failure>)
    ensures r == ClientAnswer(parse, Join(chunks), broken)
    ensures exists n :: AnswersAfter(parse, AllPayloads(Events(Join(chunks))), broken, n, r)
  {
    ClientAnswerMeans(parse, Join(chunks), broken);
    hide AnswersAfter;
    ghost var f := ClientReact(parse);
    var buffer, output := "", "";
    DrainMeans(f, "", Join(chunks));
    for i := 0 to |chunks|
      invariant Drain(f, "", Join(chunks[..i])) == Pending(output, buffer)
    {
      JoinNext(chunks, i);
      DrainAppend(f, "", Join(chunks[..i]), chunks[i]);
      buffer := buffer + chunks[i];
      var pos := FindBlank(buffer);
      while pos.Some?
        invariant pos == FindBlank(buffer)
        invariant Drain(f, "", Join(chunks[..i + 1])) == Drain(f, output, buffer)
        decreases |buffer|
      {
        var event := buffer[..pos.value];
        buffer := buffer[pos.value + 2..];
        var answer;
        answer, output := ClientEvent(parse, output, Lines(event));
        if answer.Some? {
          OverStaysOver(f, "", chunks, i + 1);
          return answer.value;
        }
        pos := FindBlank(buffer);
      }
    }
    assert chunks[..|chunks|] == chunks;
    r := if broken then Err(BrokenStream) else Ok(output);
  }

  // ------------------------------------------------------------------ the server

  datatype Choice = Choice(content: Option<string>, reasoning: Option<string>)

  /** What has been relayed, and what has been seen on the way. */
  datatype Relay = Relay(sent: seq<string>, sawContent: bool, sawReasoning: bool)

  /** The stream ends for the server at `[DONE]`, or when nobody receives. */
  datatype RelayEnd = Complete(relay: Relay) | ReceiverGone(sent: seq<string>)

  /** Whether the receiver takes one more token after `n`; `room` is how many it
      takes before it goes away, if it does. */
  predicate Receives(room: Option<nat>, n: nat) { room.None? || n < room.value }

  function ServerChoices(room: Option<nat>, relay: Relay, choices: seq<Choice>): Reaction<Relay, RelayEnd>
    decreases |choices|
  {
    if choices == [] then Go(relay)
    else
      var c := choices[0];
      var seen := if c.reasoning.Some? && c.reasoning.value != "" then relay.(sawReasoning := true) else relay;
      if c.content.Some? && c.content.value != "" then
        if Receives(room, |seen.sent|)
        then ServerChoices(room, seen.(sent := seen.sent + [c.content.value], sawContent := true), choices[1..])
        else Stop(ReceiverGone(seen.sent))
      else ServerChoices(room, seen, choices[1..])
  }

  function ServerReact(parse: string -> Option<seq<Choice>>, room: Option<nat>)
    : (Relay, string) -> Reaction<Relay, RelayEnd>
  {
    (relay: Relay, payload: string) =>
      if payload == "[DONE]" then Stop(Complete(relay))
      else if payload == "" then Go(relay)
      else
        match parse(payload)
        case None => Go(relay)
        case Some(choices) => ServerChoices(room, relay, choices)
  }

  const NOTHING_RELAYED := Relay([], false, false)

  function ServerOutcome(parse: string -> Option<seq<Choice>>, room: Option<nat>, text: string, broken: bool)
    : Result<RelayEnd, Failure>
  {
    match Meaning(ServerReact(parse, room), NOTHING_RELAYED, text)
    case Stop(end) => Ok(end)
    case Go(relay) => if broken then Err(BrokenStream) else Ok(Complete(relay))
  }

  /** What has been sent by the time the server is where a reaction leaves it. */
  function SentBy(r: Reaction<Relay, RelayEnd>): seq<string> {
    match r
    case Go(relay) => relay.sent
    case Stop(Complete(relay)) => relay.sent
    case Stop(ReceiverGone(sent)) => sent
  }

  // What a relay sends, and what it has seen.

  /** The choices that an upstream sends before `[DONE]`, in order. */
  function UpstreamChoices(parse: string -> Option<seq<Choice>>, payloads: seq<string>): seq<Choice> {
    if payloads == [] || payloads[0] == "[DONE]" then []
    else
      (if payloads[0] != "" && parse(payloads[0]).Some? then parse(payloads[0]).value else [])
      + UpstreamChoices(parse, payloads[1..])
  }

  /** The contents among some choices that are not empty. */
  function TokensAmong(choices: seq<Choice>): seq<string> {
    if choices == [] then []
    else
      (if choices[0].content.Some? && choices[0].content.value != "" then [choices[0].content.value] else [])
      + TokensAmong(choices[1..])
  }

  predicate Reasons(choices: seq<Choice>) {
    exists i :: 0 <= i < |choices| && choices[i].reasoning.Some? && choices[i].reasoning.value != ""
  }

  /** A relay after more choices, while the receiver takes every token. */
  function After(relay: Relay, choices: seq<Choice>): Relay {
    Relay(relay.sent + TokensAmong(choices), relay.sawContent || TokensAmong(choices) != [],
          relay.sawReasoning || Reasons(choices))
  }

  /** Where a relay is after more choices: the receiver gone once it has taken all
      it takes and another token comes, and otherwise all tokens sent. */
  predicate Relays(room: Option<nat>, relay: Relay, choices: seq<Choice>, r: Reaction<Relay, RelayEnd>, done: bool) {
    var all := relay.sent + TokensAmong(choices);
    if room.Some? && |all| > room.value then
      r == Stop(ReceiverGone(all[..room.value]))
    else r == if done then Stop(Complete(After(relay, choices))) else Go(After(relay, choices))
  }

  /** A relay after one choice that the receiver takes. */
  function AfterOne(relay: Relay, c: Choice): Relay {
    var seen := if c.reasoning.Some? && c.reasoning.value != "" then relay.(sawReasoning := true) else relay;
    if c.content.Some? && c.content.value != "" then seen.(sent := seen.sent + [c.content.value], sawContent := true)
    else seen
  }

  lemma AfterFirst(relay: Relay, choices: seq<Choice>)
    requires choices != []
    ensures After(AfterOne(relay, choices[0]), choices[1..]) == After(relay, choices)
    ensures relay.sent + TokensAmong(choices) == AfterOne(relay, choices[0]).sent + TokensAmong(choices[1..])
    ensures relay.sent <= AfterOne(relay, choices[0]).sent
  {
    var (c, rest) := (choices[0], choices[1..]);
    ReasonsFirst(choices);
    hide Reasons;
    assert [] + TokensAmong(rest) == TokensAmong(rest);
    if c.content.Some? && c.content.value != "" {
      assert relay.sent + ([c.content.value] + TokensAmong(rest)) == relay.sent + [c.content.value] + TokensAmong(rest);
    }
  }

  lemma {:induction false} ChoicesRelay(room: Option<nat>, relay: Relay, choices: seq<Choice>)
    requires room.Some? ==> |relay.sent| <= room.value
    ensures Relays(room, relay, choices, ServerChoices(room, relay, choices), false)
    decreases |choices|
  {
    if choices == [] {
      assert relay.sent + [] == relay.sent && !Reasons([]);
    } else {
      AfterFirst(relay, choices);
      var c := choices[0];
      if c.content.Some? && c.content.value != "" && !Receives(room, |relay.sent|) {
        assert (relay.sent + TokensAmong(choices))[..|relay.sent|] == relay.sent;
        assert TokensAmong(choices) != [];
      } else {
        hide After, TokensAmong, Reasons;
        ChoicesRelay(room, AfterOne(relay, c), choices[1..]);
      }
    }
  }

  lemma ReasonsFirst(choices: seq<Choice>)
    requires choices != []
    ensures Reasons(choices) <==>
      (choices[0].reasoning.Some? && choices[0].reasoning.value != "") || Reasons(choices[1..])
  {
    assert forall i :: 0 < i < |choices| ==> choices[i] == choices[1..][i - 1];
  }

  lemma {:induction false} TokensAppend(a: seq<Choice>, b: seq<Choice>)
    ensures TokensAmong(a + b) == TokensAmong(a) + TokensAmong(b)
  {
    if a == [] {
      assert a + b == b;
    } else {
      TokensAppend(a[1..], b);
      assert (a + b)[1..] == a[1..] + b;
    }
  }

  lemma AfterAppend(relay: Relay, a: seq<Choice>, b: seq<Choice>)
    ensures After(After(relay, a), b) == After(relay, a + b)
    ensures After(relay, a).sent + TokensAmong(b) == relay.sent + TokensAmong(a + b)
  {
    TokensAppend(a, b);
    assert relay.sent + TokensAmong(a) + TokensAmong(b) == relay.sent + (TokensAmong(a) + TokensAmong(b));
    assert Reasons(a + b) <==> Reasons(a) || Reasons(b) by {
      assert forall i :: 0 <= i < |a| ==> (a + b)[i] == a[i];
      assert forall i :: 0 <= i < |b| ==> (a + b)[|a| + i] == b[i];
    }
  }

  lemma NothingMore(relay: Relay)
    ensures After(relay, []) == relay && relay.sent + TokensAmong([]) == relay.sent
  {
    assert !Reasons([]) && relay.sent + [] == relay.sent;
  }

  lemma RelaysAppend(room: Option<nat>, relay: Relay, a: seq<Choice>, b: seq<Choice>, step: Reaction<Relay, RelayEnd>,
                     r: Reaction<Relay, RelayEnd>, done: bool)
    requires room.Some? ==> |relay.sent| <= room.value
    requires Relays(room, relay, a, step, false)
    requires if step.Go? then Relays(room, step.state, b, r, done) else r == step
    ensures Relays(room, relay, a + b, r, done)
  {
    AfterAppend(relay, a, b);
    TokensAppend(a, b);
    hide TokensAmong, Reasons;
    var (all, part) := (relay.sent + TokensAmong(a + b), relay.sent + TokensAmong(a));
    assert all == part + TokensAmong(b);
    if step.Stop? {
      assert all[..room.value] == part[..room.value];
    }
  }

  /** The relay sends the upstream's tokens in order, as many as are received, and
      ends as the receiver or the end marker makes it. */
  lemma {:induction false} PayloadsRelay(parse: string -> Option<seq<Choice>>, room: Option<nat>, relay: Relay,
                                         payloads: seq<string>)
    requires room.Some? ==> |relay.sent| <= room.value
    ensures Relays(room, relay, UpstreamChoices(parse, payloads),
                   React(ServerReact(parse, room), relay, payloads), "[DONE]" in payloads)
    decreases |payloads|
  {
    NothingMore(relay);
    if payloads != [] && payloads[0] != "[DONE]" {
      var first := if payloads[0] != "" && parse(payloads[0]).Some? then parse(payloads[0]).value else [];
      ChoicesRelay(room, relay, first);
      var (step, rest) := (ServerReact(parse, room)(relay, payloads[0]), payloads[1..]);
      assert step == ServerChoices(room, relay, first);
      assert "[DONE]" in payloads <==> "[DONE]" in rest;
      if step.Go? {
        PayloadsRelay(parse, room, step.state, rest);
      }
      var r := React(ServerReact(parse, room), relay, payloads);
      RelaysAppend(room, relay, first, UpstreamChoices(parse, rest), step, r, "[DONE]" in payloads);
    }
  }

  method ServerChunk(room: Option<nat>, relay: Relay, choices: seq<Choice>)
    returns (gone: bool, relay': Relay)
    ensures ServerChoices(room, relay, choices) == if gone then Stop(ReceiverGone(relay'.sent)) else Go(relay')
  {
    relay' := relay;
    for i := 0 to |choices|
      invariant ServerChoices(room, relay, choices) == ServerChoices(room, relay', choices[i..])
    {
      var c := choices[i];
      assert choices[i..][0] == c && choices[i..][1..] == choices[i + 1..];
      if c.reasoning.Some? && c.reasoning.value != "" {
        relay' := relay'.(sawReasoning := true);
      }
      if c.content.Some? && c.content.value != "" {
        if !Receives(room, |relay'.sent|) {
          return true, relay';
        }
        relay' := relay'.(sent := relay'.sent + [c.content.value], sawContent := true);
      }
    }
    gone := false;
  }

  method ServerEvent(parse: string -> Option<seq<Choice>>, room: Option<nat>, relay: Relay, lines: seq<string>)
    returns (end: Option<RelayEnd>, relay': Relay)
    ensures React(ServerReact(parse, room), relay, Payloads(lines))
         == if end.Some? then Stop(end.value) else Go(relay')
  {
    ghost var f := ServerReact(parse, room);
    relay' := relay;
    for i := 0 to |lines|
      invariant React(f, relay, Payloads(lines)) == React(f, relay', Payloads(lines[i..]))
    {
      PayloadsNext(f, relay', lines[i..]);
      assert lines[i..][1..] == lines[i + 1..];
      if !(DATA <= lines[i]) {
        continue;
      }
      var data := lines[i][|DATA|..];
      if data == "[DONE]" {
        return Some(Complete(relay')), relay';
      }
      if data == "" {
        continue;
      }
      var choices := parse(data);
      if choices.Some? {
        var gone;
        gone, relay' := ServerChunk(room, relay', choices.value);
        if gone {
          return Some(ReceiverGone(relay'.sent)), relay';
        }
      }
    }
    return None, relay';
  }

  lemma RelaysFromNothing(room: Option<nat>, choices: seq<Choice>)
    ensures NOTHING_RELAYED.sent + TokensAmong(choices) == TokensAmong(choices)
    ensures After(NOTHING_RELAYED, choices)
         == Relay(TokensAmong(choices), TokensAmong(choices) != [], Reasons(choices))
  {
    assert [] + TokensAmong(choices) == TokensAmong(choices);
  }

  /** The server's loop over the chunks of an upstream response. */
  method RelayTokens(parse: string -> Option<seq<Choice>>, room: Option<nat>, chunks: seq<string>, broken: bool)
    returns (r: Result<RelayEnd, Failure>, sent: seq<string>)
    ensures r == ServerOutcome(parse, room, Join(chunks), broken)
    ensures sent == SentBy(Meaning(ServerReact(parse, room), NOTHING_RELAYED, Join(chunks)))
    ensures
      var payloads := AllPayloads(Events(Join(chunks)));
      var choices := UpstreamChoices(parse, payloads);
      var tokens := TokensAmong(choices);
      if room.Some? && |tokens| > room.value then
        sent == tokens[..room.value] && r == Ok(ReceiverGone(sent))
      else
        sent == tokens &&
        r == if broken && "[DONE]" !in payloads then Err(BrokenStream)
             else Ok(Complete(Relay(sent, sent != [], Reasons(choices))))
  {
    PayloadsRelay(parse, room, NOTHING_RELAYED, AllPayloads(Events(Join(chunks))));
    RelaysFromNothing(room, UpstreamChoices(parse, AllPayloads(Events(Join(chunks)))));
    hide UpstreamChoices, TokensAmong, Reasons, AllPayloads, Events;
    ghost var f := ServerReact(parse, room);
    var buffer, relay := "", NOTHING_RELAYED;
    DrainMeans(f, NOTHING_RELAYED, Join(chunks));
    for i := 0 to |chunks|
      invariant Drain(f, NOTHING_RELAYED, Join(chunks[..i])) == Pending(relay, buffer)
    {
      JoinNext(chunks, i);
      DrainAppend(f, NOTHING_RELAYED, Join(chunks[..i]), chunks[i]);
      buffer := buffer + chunks[i];
      var pos := FindBlank(buffer);
      while pos.Some?
        invariant pos == FindBlank(buffer)
        invariant Drain(f, NOTHING_RELAYED, Join(chunks[..i + 1])) == Drain(f, relay, buffer)
        decreases |buffer|
      {
        var event := buffer[..pos.value];
        buffer := buffer[pos.value + 2..];
        var end;
        end, relay := ServerEvent(parse, room, relay, Lines(event));
        if end.Some? {
          OverStaysOver(f, NOTHING_RELAYED, chunks, i + 1);
          return Ok(end.value), SentBy(Stop(end.value));
        }
        pos := FindBlank(buffer);
      }
    }
    assert chunks[..|chunks|] == chunks;
    r := if broken then Err(BrokenStream) else Ok(Complete(relay));
    sent := relay.sent;
  }

  // ------------------------------------------------------- what the relay delivers

  /** The relay state is what it looks like: content was seen exactly when
      something was sent, and no more was sent than the receiver takes. */
  predicate Sound(room: Option<nat>, relay: Relay) {
    (relay.sawContent <==> relay.sent != []) && (room.Some? ==> |relay.sent| <= room.value)
    && forall t :: t in relay.sent ==> t != ""
  }

  lemma {:induction false} ChoicesSound(room: Option<nat>, relay: Relay, choices: seq<Choice>)
    requires Sound(room, relay)
    ensures match ServerChoices(room, relay, choices)
      case Go(r) => Sound(room, r) && relay.sent <= r.sent
      case Stop(end) => end.ReceiverGone? && room == Some(|end.sent|) && relay.sent <= end.sent
    decreases |choices|
  {
    if choices != [] {
      var c := choices[0];
      var seen := if c.reasoning.Some? && c.reasoning.value != "" then relay.(sawReasoning := true) else relay;
      if c.content.Some? && c.content.value != "" {
        if Receives(room, |seen.sent|) {
          ChoicesSound(room, seen.(sent := seen.sent + [c.content.value], sawContent := true), choices[1..]);
        }
      } else {
        ChoicesSound(room, seen, choices[1..]);
      }
    }
  }

  /** Whatever the upstream sends, the relay is sound at every point where it can
      end, and tokens once sent are never taken back. */
  lemma {:induction false} RelaySound(
    parse: string -> Option<seq<Choice>>, room: Option<nat>, relay: Relay, payloads: seq<string>)
    requires Sound(room, relay)
    ensures match React(ServerReact(parse, room), relay, payloads)
      case Go(r) => Sound(room, r) && relay.sent <= r.sent
      case Stop(end) =>
        if end.Complete? then Sound(room, end.relay) && relay.sent <= end.relay.sent
        else room == Some(|end.sent|) && relay.sent <= end.sent
    decreases |payloads|
  {
    if payloads != [] {
      var step := ServerReact(parse, room)(relay, payloads[0]);
      if payloads[0] != "[DONE]" && payloads[0] != "" && parse(payloads[0]).Some? {
        ChoicesSound(room, relay, parse(payloads[0]).value);
      }
      if step.Go? {
        RelaySound(parse, room, step.state, payloads[1..]);
      }
    }
  }
}
