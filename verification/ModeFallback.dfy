/** How a request that carries a schema finds the strongest form of structured
    output its endpoint accepts: retries in place, a step down on a refusal, and
    one cached mode that concurrent requests share. */
module ModeFallback {
  import opened Text

  // ------------------------------------------------------------------- the modes

  datatype StructuredMode = JsonSchema | JsonObject | Prompt
  {
    function Ordinal(): nat {
      match this
      case JsonSchema => 0
      case JsonObject => 1
      case Prompt => 2
    }
  }

  /** Strongest first. */
  const ORDERED: seq<StructuredMode> := [JsonSchema, JsonObject, Prompt]

  function FromOrdinal(v: nat): StructuredMode {
    if v < |ORDERED| then ORDERED[v] else Prompt
  }

  const MAX_TRANSIENT_RETRIES: nat := 3

  /** What one request comes back with. */
  datatype Response = SendFailed | Status(code: nat)

  predicate IsSuccess(code: nat) { 200 <= code < 300 }

  predicate IsTransientStatus(code: nat) {
    code == 408 || code == 425 || code == 429 || 500 <= code <= 599
  }

  predicate IsRefusal(code: nat) { code == 400 || code == 422 }

  // --------------------------------------------------------------- one call alone

  /** Where a call is: the ordinal of its mode (none without a schema), the try
      within it, and how often it has sent each mode, weakest mode included. */
  datatype Call =
    | Trying(mode: Option<nat>, attempt: nat, sent: map<Option<nat>, nat>)
    | Succeeded(mode: Option<nat>, sent: map<Option<nat>, nat>)
    | Failed(mode: Option<nat>, response: Response, sent: map<Option<nat>, nat>)

  /** A call starts at the cached mode when it has a schema, else without one. */
  function Begin(cache: nat, hasSchema: bool): Call {
    Trying(if hasSchema then Some(FromOrdinal(cache).Ordinal()) else None, 0, map[])
  }

  function Bump(sent: map<Option<nat>, nat>, mode: Option<nat>): map<Option<nat>, nat> {
    sent[mode := (if mode in sent then sent[mode] else 0) + 1]
  }

  /** No weaker mode is left to step down to. */
  predicate IsLast(mode: Option<nat>) { mode.None? || mode.value + 1 >= |ORDERED| }

  /** One request and what the call makes of its response. */
  function Advance(c: Call, response: Response): Call
    requires c.Trying?
  {
    var sent := Bump(c.sent, c.mode);
    var retriesLeft := c.attempt < MAX_TRANSIENT_RETRIES;
    if response.SendFailed? then
      if retriesLeft then Trying(c.mode, c.attempt + 1, sent) else Failed(c.mode, response, sent)
    else if IsSuccess(response.code) then Succeeded(c.mode, sent)
    else if IsTransientStatus(response.code) && retriesLeft then Trying(c.mode, c.attempt + 1, sent)
    else if !IsLast(c.mode) && IsRefusal(response.code) then Trying(Some(c.mode.value + 1), 0, sent)
    else Failed(c.mode, response, sent)
  }

  /** The mode a response leaves in the cache. */
  function Cached(cache: nat, c: Call, response: Response): nat
    requires c.Trying?
  {
    if response.Status? && IsSuccess(response.code) && c.mode.Some? then c.mode.value else cache
  }

  /** A whole call: request `n` gets the response `respond(mode, n)`. */
  function Alone(c: Call, respond: (Option<nat>, nat) -> Response, n: nat): Call
    decreases
      if c.Trying? && c.mode.Some? && c.mode.value < |ORDERED| then |ORDERED| - c.mode.value else 0,
      if c.Trying? && c.attempt <= MAX_TRANSIENT_RETRIES then MAX_TRANSIENT_RETRIES + 1 - c.attempt else 0,
      if c.Trying? then 1 else 0
  {
    if !c.Trying? then c else Alone(Advance(c, respond(c.mode, n)), respond, n + 1)
  }

  // The requests of a call fall into legs, one for each mode tried: leg `i` is
  // requests `legs[i]` to `legs[i + 1] - 1`.

  /** The mode of a leg: the cached one, then one weaker a leg. */
  function LegMode(cache: nat, hasSchema: bool, i: nat): Option<nat> {
    if hasSchema then Some((if cache < 3 then cache else 2) + i) else None
  }

  /** Requests `from` to `to - 1` of a mode: up to four, and each but the last
      came back with a failure that may pass. */
  predicate Tries(mode: Option<nat>, respond: (Option<nat>, nat) -> Response, from: nat, to: nat) {
    && from + 1 <= to <= from + 4
    && forall j :: from <= j < to - 1 ==>
         (respond(mode, j).SendFailed?
          || respond(mode, j).code in {408, 425, 429} || 500 <= respond(mode, j).code <= 599)
  }

  /** The tries of a mode that ended in a refusal and are not the last mode's. */
  predicate Refused(mode: Option<nat>, respond: (Option<nat>, nat) -> Response, from: nat, to: nat) {
    && Tries(mode, respond, from, to)
    && mode.Some? && mode.value < 2
    && respond(mode, to - 1).Status? && respond(mode, to - 1).code in {400, 422}
  }

  /** What the last response of a leg makes of the call. */
  predicate Decides(mode: Option<nat>, last: Response, tries: nat, after: Call) {
    if last.Status? && 200 <= last.code <= 299 then after == Succeeded(mode, after.sent)
    else if last.Status? && last.code in {400, 422} && mode.Some? && mode.value < 2
    then after == Trying(Some(mode.value + 1), 0, after.sent)
    else
      && after == Failed(mode, last, after.sent)
      && (last.SendFailed? || last.code in {408, 425, 429} || 500 <= last.code <= 599 ==> tries == 4)
  }

  /** Legs that all ended in a refusal, and what they sent. */
  predicate PassedOver(cache: nat, hasSchema: bool, respond: (Option<nat>, nat) -> Response, legs: seq<nat>,
                       sent: map<Option<nat>, nat>)
  {
    && legs != [] && legs[0] == 0
    && (forall i | 0 <= i < |legs| - 1 ::
          var mode := LegMode(cache, hasSchema, i);
          && Refused(mode, respond, legs[i], legs[i + 1])
          && mode in sent && sent[mode] == legs[i + 1] - legs[i])
    && forall mode :: mode in sent ==> exists i :: 0 <= i < |legs| - 1 && mode == LegMode(cache, hasSchema, i)
  }

  /** A whole call: legs that ended in a refusal, and one that ended the call. */
  predicate RanInLegs(cache: nat, hasSchema: bool, respond: (Option<nat>, nat) -> Response, legs: seq<nat>,
                      end: Call)
  {
    && |legs| >= 2
    && var (from, to, mode) := (legs[|legs| - 2], legs[|legs| - 1], LegMode(cache, hasSchema, |legs| - 2));
       && Tries(mode, respond, from, to)
       && !end.Trying? && Decides(mode, respond(mode, to - 1), to - from, end)
       && mode in end.sent && end.sent[mode] == to - from
       && PassedOver(cache, hasSchema, respond, legs[..|legs| - 1], end.sent - {mode})
  }

  /** At most three tries, each with a failure that may pass, before request `k`. */
  predicate AfterRetries(mode: Option<nat>, respond: (Option<nat>, nat) -> Response, k: int) {
    && 0 <= k <= 3
    && forall j :: 0 <= j < k ==>
         (respond(mode, j).SendFailed?
          || respond(mode, j).code in {408, 425, 429} || 500 <= respond(mode, j).code <= 599)
  }

  lemma NoLegs(cache: nat, hasSchema: bool, respond: (Option<nat>, nat) -> Response)
    ensures PassedOver(cache, hasSchema, respond, [0], map[])
  {
  }

  /** The mode of the next leg was not sent yet. */
  lemma NextUnsent(cache: nat, hasSchema: bool, respond: (Option<nat>, nat) -> Response, legs: seq<nat>,
                   sent: map<Option<nat>, nat>)
    requires PassedOver(cache, hasSchema, respond, legs, sent)
    ensures LegMode(cache, hasSchema, |legs| - 1) !in sent
  {
    hide Tries;
    assert |legs| > 1 ==> Refused(LegMode(cache, hasSchema, 0), respond, legs[0], legs[1]) && hasSchema;
    assert forall i :: 0 <= i < |legs| - 1 ==> LegMode(cache, hasSchema, i) != LegMode(cache, hasSchema, |legs| - 1);
  }

  lemma LegRefused(cache: nat, hasSchema: bool, respond: (Option<nat>, nat) -> Response, legs: seq<nat>,
                   sent: map<Option<nat>, nat>, n: nat, after: Call)
    requires PassedOver(cache, hasSchema, respond, legs, sent)
    requires var (from, mode) := (legs[|legs| - 1], LegMode(cache, hasSchema, |legs| - 1));
      && Tries(mode, respond, from, n) && Decides(mode, respond(mode, n - 1), n - from, after) && after.Trying?
      && mode !in sent && after.sent == sent[mode := n - from]
    ensures PassedOver(cache, hasSchema, respond, legs + [n], after.sent)
  {
    var (all, mode) := (legs + [n], LegMode(cache, hasSchema, |legs| - 1));
    assert Refused(mode, respond, legs[|legs| - 1], n);
    hide Tries, Decides, LegMode, Refused;
    forall m | m in after.sent
      ensures exists i :: 0 <= i < |all| - 1 && m == LegMode(cache, hasSchema, i)
    {
      if m != mode {
        var i :| 0 <= i < |legs| - 1 && m == LegMode(cache, hasSchema, i);
      } else {
        assert m == LegMode(cache, hasSchema, |legs| - 1);
      }
    }
  }

  lemma LegEnds(cache: nat, hasSchema: bool, respond: (Option<nat>, nat) -> Response, legs: seq<nat>,
                sent: map<Option<nat>, nat>, n: nat, after: Call)
    requires PassedOver(cache, hasSchema, respond, legs, sent)
    requires var (from, mode) := (legs[|legs| - 1], LegMode(cache, hasSchema, |legs| - 1));
      && Tries(mode, respond, from, n) && Decides(mode, respond(mode, n - 1), n - from, after)
      && after.sent == sent[mode := (if mode in sent then sent[mode] else 0) + (n - from)]
    ensures after.Trying? ==> PassedOver(cache, hasSchema, respond, legs + [n], after.sent)
    ensures !after.Trying? ==> RanInLegs(cache, hasSchema, respond, legs + [n], after)
  {
    hide Tries, Decides, LegMode, Refused;
    NextUnsent(cache, hasSchema, respond, legs, sent);
    if after.Trying? {
      LegRefused(cache, hasSchema, respond, legs, sent, n, after);
    } else {
      assert (legs + [n])[..|legs|] == legs;
      assert after.sent - {LegMode(cache, hasSchema, |legs| - 1)} == sent;
    }
  }

  /** The first request that is not retried decides, in the first mode. */
  lemma FirstLeg(cache: nat, hasSchema: bool, respond: (Option<nat>, nat) -> Response, legs: seq<nat>, end: Call,
                 k: int)
    requires RanInLegs(cache, hasSchema, respond, legs, end)
    requires AfterRetries(LegMode(cache, hasSchema, 0), respond, k)
    ensures var (first, last) := (LegMode(cache, hasSchema, 0), respond(LegMode(cache, hasSchema, 0), k));
      (last.SendFailed? || last.code in {408, 425, 429} || 500 <= last.code <= 599 ==> k == 3) ==>
        && first in end.sent && end.sent[first] == k + 1
        && if last.Status? && last.code in {400, 422} && hasSchema && first.value < 2
           then Some(first.value + 1) in end.sent
           else end == (if last.Status? && 200 <= last.code <= 299 then Succeeded(first, map[first := k + 1])
                        else Failed(first, last, map[first := k + 1]))
  {
    var first := LegMode(cache, hasSchema, 0);
    var init := legs[..|legs| - 1];
    if |legs| > 2 {
      assert init[0] == 0 && init[1] == legs[1];
      assert Tries(first, respond, 0, legs[1]) && end.sent[first] == legs[1];
      var second := LegMode(cache, hasSchema, 1);
      assert second in end.sent by {
        if |legs| > 3 {
          assert Tries(second, respond, init[1], init[2]) && second in end.sent - {end.mode};
        }
      }
    } else {
      assert Tries(first, respond, 0, legs[1]);
      assert end.sent == map[first := legs[1]] by {
        assert forall m :: m in end.sent && m != first ==> m in end.sent - {first};
      }
    }
  }

  lemma AloneEnded(c: Call, respond: (Option<nat>, nat) -> Response, n: nat)
    requires !c.Trying?
    ensures Alone(c, respond, n) == c
  {
  }

  class ServerLlm {
    var structuredMode: nat

    /** The tries of one mode, requests `n` to `n' - 1`: they end the call, or
        the mode is refused and the next one is due. */
    method TryMode(mode: Option<nat>, isLast: bool, respond: (Option<nat>, nat) -> Response,
                   n: nat, sent: map<Option<nat>, nat>)
      returns (after: Call, n': nat)
      requires isLast == IsLast(mode)
      modifies this
      ensures Alone(Trying(mode, 0, sent), respond, n) == Alone(after, respond, n')
      ensures structuredMode ==
        if after.Succeeded? && after.mode.Some? then after.mode.value else old(structuredMode)
      ensures Tries(mode, respond, n, n') && Decides(mode, respond(mode, n' - 1), n' - n, after)
      ensures after.sent == sent[mode := (if mode in sent then sent[mode] else 0) + (n' - n)]
    {
      n' := n;
      var attempt, sent' := 0, sent;
      while true
        invariant attempt <= MAX_TRANSIENT_RETRIES && n' == n + attempt
        invariant Alone(Trying(mode, 0, sent), respond, n) == Alone(Trying(mode, attempt, sent'), respond, n')
        invariant structuredMode == old(structuredMode)
        invariant sent' ==
          if attempt == 0 then sent else sent[mode := (if mode in sent then sent[mode] else 0) + attempt]
        invariant forall j :: n <= j < n' ==>
          (respond(mode, j).SendFailed?
           || respond(mode, j).code in {408, 425, 429} || 500 <= respond(mode, j).code <= 599)
        decreases MAX_TRANSIENT_RETRIES - attempt
      {
        var retriesLeft := attempt < MAX_TRANSIENT_RETRIES;
        var response := respond(mode, n');
        n' := n' + 1;
        sent' := Bump(sent', mode);
        if response.SendFailed? {
          if retriesLeft {
            attempt := attempt + 1;
            continue;
          }
          return Failed(mode, response, sent'), n';
        }
        if IsSuccess(response.code) {
          if mode.Some? {
            structuredMode := mode.value;
          }
          return Succeeded(mode, sent'), n';
        }
        if IsTransientStatus(response.code) && retriesLeft {
          attempt := attempt + 1;
          continue;
        }
        if !isLast && IsRefusal(response.code) {
          return Trying(Some(mode.value + 1), 0, sent'), n';
        }
        return Failed(mode, response, sent'), n';
      }
    }

    /** The request loop of one call, up to its response or its error. `legs`
        tells where the tries of each mode began. */
    method Request(hasSchema: bool, respond: (Option<nat>, nat) -> Response)
      returns (end: Call, ghost legs: seq<nat>)
      modifies this
      ensures end == Alone(Begin(old(structuredMode), hasSchema), respond, 0)
      ensures structuredMode ==
        if end.Succeeded? && end.mode.Some? then end.mode.value else old(structuredMode)
      ensures RanInLegs(old(structuredMode), hasSchema, respond, legs, end)
      // After up to three passing failures of the first mode, a success is the
      // answer, a refusal of a mode that is not the weakest leads to the next
      // mode, and any other status that is not retried is the end.
      ensures forall k | AfterRetries(LegMode(old(structuredMode), hasSchema, 0), respond, k) ::
        var first := LegMode(old(structuredMode), hasSchema, 0);
        var last := respond(first, k);
        (last.SendFailed? || last.code in {408, 425, 429} || 500 <= last.code <= 599 ==> k == 3) ==>
          && first in end.sent && end.sent[first] == k + 1
          && if last.Status? && last.code in {400, 422} && hasSchema && first.value < 2
             then Some(first.value + 1) in end.sent
             else end == (if last.Status? && 200 <= last.code <= 299 then Succeeded(first, map[first := k + 1])
                          else Failed(first, last, map[first := k + 1]))
    {
      hide Alone, Tries, Decides, PassedOver, RanInLegs, AfterRetries;
      var start := FromOrdinal(structuredMode).Ordinal();
      var attempts: seq<Option<nat>> :=
        if hasSchema then seq(|ORDERED| - start, i requires 0 <= i => Some(start + i)) else [None];
      end, legs := Begin(structuredMode, hasSchema), [0];
      ghost var cache := structuredMode;
      NoLegs(cache, hasSchema, respond);
      var n := 0;
      for i := 0 to |attempts|
        invariant Alone(Begin(cache, hasSchema), respond, 0) == Alone(end, respond, n)
        invariant i < |attempts| && end == Trying(attempts[i], 0, end.sent)
        invariant structuredMode == cache == old(structuredMode)
        invariant |legs| == i + 1 && legs[i] == n && PassedOver(cache, hasSchema, respond, legs, end.sent)
      {
        ghost var (was, sent) := (legs, end.sent);
        end, n := TryMode(attempts[i], i == |attempts| - 1, respond, n, end.sent);
        legs := legs + [n];
        LegEnds(cache, hasSchema, respond, was, sent, n, end);
        if !end.Trying? {
          AloneEnded(end, respond, n);
          forall k | AfterRetries(LegMode(cache, hasSchema, 0), respond, k) {
            FirstLeg(cache, hasSchema, respond, legs, end, k);
          }
          return;
        }
      }
      assert false;
    }
  }

  // ------------------------------------------------------ calls that interleave

  /** The cached mode that all calls share, and the calls begun so far. */
  datatype System = System(cache: nat, calls: map<nat, Call>)

  datatype Event =
    | Start(id: nat, hasSchema: bool)
    | Answer(id: nat, response: Response)

  const FRESH := System(0, map[])

  predicate Enabled(s: System, e: Event) {
    match e
    case Start(id, _) => id !in s.calls
    case Answer(id, _) => id in s.calls && s.calls[id].Trying?
  }

  function Apply(s: System, e: Event): System
    requires Enabled(s, e)
  {
    match e
    case Start(id, hasSchema) => s.(calls := s.calls[id := Begin(s.cache, hasSchema)])
    case Answer(id, response) =>
      System(Cached(s.cache, s.calls[id], response), s.calls[id := Advance(s.calls[id], response)])
  }

  /** The state after a run of whatever responses, if its events could happen. */
  function AnyRun(events: seq<Event>): Option<System> {
    if events == [] then Some(FRESH)
    else
      var (init, last) := (events[..|events| - 1], events[|events| - 1]);
      match AnyRun(init)
      case None => None
      case Some(s) => if Enabled(s, last) then Some(Apply(s, last)) else None
  }

  /** What an endpoint that accepts a fixed set of modes may answer: it refuses
      no mode it accepts, and gives the others a refusal or a passing failure. */
  predicate Answers(accepts: set<nat>, mode: Option<nat>, response: Response) {
    mode.Some? ==>
      if mode.value in accepts then response.Status? ==> !IsRefusal(response.code)
      else response.SendFailed? || IsRefusal(response.code) || IsTransientStatus(response.code)
  }

  predicate EndpointObeys(accepts: set<nat>, s: System, e: Event)
    requires Enabled(s, e)
  {
    e.Answer? ==> Answers(accepts, s.calls[e.id].mode, e.response)
  }

  /** The same for a run whose responses are those of such an endpoint. */
  function Run(accepts: set<nat>, events: seq<Event>): Option<System> {
    if events == [] then Some(FRESH)
    else
      var (init, last) := (events[..|events| - 1], events[|events| - 1]);
      match Run(accepts, init)
      case None => None
      case Some(s) =>
        if Enabled(s, last) && EndpointObeys(accepts, s, last) then Some(Apply(s, last)) else None
  }

  predicate IsStrongest(accepts: set<nat>, m: nat) {
    m in accepts && m < |ORDERED| && forall k :: k in accepts ==> m <= k
  }

  predicate AcceptsNone(accepts: set<nat>) { forall k :: k in accepts ==> k >= |ORDERED| }

  function Count(sent: map<Option<nat>, nat>, mode: Option<nat>): nat {
    if mode in sent then sent[mode] else 0
  }

  /** At most four requests of any one mode. */
  predicate FewEach(sent: map<Option<nat>, nat>) {
    forall m :: m in sent ==> sent[m] <= MAX_TRANSIENT_RETRIES + 1
  }

  /** A mode the call may be in: no stronger accepted mode was passed over. */
  predicate Reachable(accepts: set<nat>, mode: Option<nat>) {
    mode.Some? ==> mode.value < |ORDERED| && forall k :: k in accepts ==> mode.value <= k
  }

  predicate SentUpTo(sent: map<Option<nat>, nat>, mode: Option<nat>) {
    forall m :: m in sent ==> if mode.None? then m.None? else m.Some? && m.value <= mode.value
  }

  /** The bounds of a call, which hold whatever it is answered. */
  predicate CallWithin(c: Call) {
    && (c.mode.Some? ==> c.mode.value < |ORDERED|)
    && FewEach(c.sent) && SentUpTo(c.sent, c.mode)
    && (c.Trying? ==> c.attempt <= MAX_TRANSIENT_RETRIES && Count(c.sent, c.mode) == c.attempt)
  }

  predicate CallOk(accepts: set<nat>, c: Call) {
    && CallWithin(c)
    && match c
       case Trying(mode, _, _) => Reachable(accepts, mode)
       case Succeeded(mode, _) => mode.Some? ==> IsStrongest(accepts, mode.value)
       case Failed(mode, response, _) =>
         Reachable(accepts, mode)
         && (mode.Some? && response.Status? && IsRefusal(response.code) ==> AcceptsNone(accepts))
  }

  /** What holds at every point of every run. */
  predicate Invariant(accepts: set<nat>, s: System) {
    && (s.cache == 0 || IsStrongest(accepts, s.cache))
    && forall id :: id in s.calls ==> CallOk(accepts, s.calls[id])
  }

  lemma BeginOk(accepts: set<nat>, cache: nat, hasSchema: bool)
    requires cache == 0 || IsStrongest(accepts, cache)
    ensures CallOk(accepts, Begin(cache, hasSchema))
  {
  }

  lemma AdvanceWithin(c: Call, response: Response)
    requires c.Trying? && CallWithin(c)
    ensures CallWithin(Advance(c, response))
  {
    var (sent, after) := (Bump(c.sent, c.mode), Advance(c, response));
    assert forall m :: Count(sent, m) == Count(c.sent, m) + if m == c.mode then 1 else 0;
    if after.Trying? && after.mode != c.mode {
      assert Count(sent, after.mode) == 0;
    }
  }

  lemma AdvanceOk(accepts: set<nat>, c: Call, response: Response)
    requires c.Trying? && CallOk(accepts, c) && Answers(accepts, c.mode, response)
    ensures CallOk(accepts, Advance(c, response))
  {
    AdvanceWithin(c, response);
    var after := Advance(c, response);
    if after.Trying? && after.mode != c.mode {
      assert c.mode.value !in accepts;
      assert forall k :: k in accepts ==> c.mode.value != k;
    }
    if after.Failed? && c.mode.Some? && response.Status? && IsRefusal(response.code) {
      assert c.mode.value !in accepts && c.mode.value + 1 == |ORDERED|;
    }
  }

  /** Under any interleaving of calls the cached mode is the initial one or the
      strongest the endpoint accepts, no call has passed over an accepted mode,
      and no call with an accepted mode fails on a refusal. */
  lemma {:induction false} EveryRunKeeps(accepts: set<nat>, events: seq<Event>)
    requires Run(accepts, events).Some?
    ensures Invariant(accepts, Run(accepts, events).value)
    decreases |events|
  {
    if events != [] {
      var (init, e) := (events[..|events| - 1], events[|events| - 1]);
      EveryRunKeeps(accepts, init);
      var s := Run(accepts, init).value;
      match e
      case Start(id, hasSchema) => BeginOk(accepts, s.cache, hasSchema);
      case Answer(id, response) =>
        AdvanceOk(accepts, s.calls[id], response);
        if Cached(s.cache, s.calls[id], response) != s.cache {
          assert IsStrongest(accepts, s.calls[id].mode.value);
        }
    }
  }

  /** The cached mode never moves back toward a stronger one. */
  lemma {:induction false} CacheOnlyWeakens(accepts: set<nat>, events: seq<Event>, n: nat)
    requires n <= |events| && Run(accepts, events).Some?
    ensures Run(accepts, events[..n]).Some?
    ensures Run(accepts, events[..n]).value.cache <= Run(accepts, events).value.cache
    decreases |events|
  {
    if n == |events| {
      assert events[..n] == events;
    } else {
      var init := events[..|events| - 1];
      CacheOnlyWeakens(accepts, init, n);
      assert init[..n] == events[..n];
      EveryRunKeeps(accepts, init);
      EveryRunKeeps(accepts, events);
      var (s, e) := (Run(accepts, init).value, events[|events| - 1]);
      if e.Answer? && Cached(s.cache, s.calls[e.id], e.response) != s.cache {
        assert IsStrongest(accepts, s.calls[e.id].mode.value);
      }
    }
  }

  /** What a success leaves: from then on the cached mode is the one that any
      call with a schema succeeded in, whatever other calls are answered. */
  lemma {:induction false} SuccessIsCached(accepts: set<nat>, events: seq<Event>, id: nat)
    requires Run(accepts, events).Some? && id in Run(accepts, events).value.calls
    requires var c := Run(accepts, events).value.calls[id]; c.Succeeded? && c.mode.Some?
    ensures var s := Run(accepts, events).value; Some(s.cache) == s.calls[id].mode
    decreases |events|
  {
    var (init, e) := (events[..|events| - 1], events[|events| - 1]);
    EveryRunKeeps(accepts, events);
    var before := Run(accepts, init).value;
    if id in before.calls && before.calls[id].Succeeded? {
      SuccessIsCached(accepts, init, id);
      if e.Answer? {
        assert CallOk(accepts, Run(accepts, events).value.calls[e.id]);
      }
    }
  }

  /** Everything one call has sent. */
  function TotalSent(sent: map<Option<nat>, nat>): nat {
    Count(sent, None) + Count(sent, Some(0)) + Count(sent, Some(1)) + Count(sent, Some(2))
  }

  lemma CallBounded(c: Call)
    requires CallWithin(c)
    ensures (forall m :: Count(c.sent, m) <= 4) && TotalSent(c.sent) <= 12
    ensures c.sent.Keys <= {None, Some(0), Some(1), Some(2)}
  {
    assert FewEach(c.sent);
    if c.mode.None? {
      assert Count(c.sent, Some(0)) == Count(c.sent, Some(1)) == Count(c.sent, Some(2)) == 0;
    } else {
      assert Count(c.sent, None) == 0;
    }
  }

  lemma {:induction false} EveryCallWithin(events: seq<Event>, id: nat)
    requires AnyRun(events).Some? && id in AnyRun(events).value.calls
    ensures CallWithin(AnyRun(events).value.calls[id])
    decreases |events|
  {
    var (init, e) := (events[..|events| - 1], events[|events| - 1]);
    var s := AnyRun(init).value;
    if id in s.calls {
      EveryCallWithin(init, id);
      if e.Answer? && e.id == id {
        AdvanceWithin(s.calls[id], e.response);
      }
    }
  }

  /** Whatever it is answered, a call sends at most four requests of a mode and
      twelve in all, and `TotalSent` leaves none of them out. */
  lemma EveryCallIsBounded(events: seq<Event>, id: nat)
    requires AnyRun(events).Some? && id in AnyRun(events).value.calls
    ensures
      var sent := AnyRun(events).value.calls[id].sent;
      (forall m :: Count(sent, m) <= 4) && TotalSent(sent) <= 12 && sent.Keys <= {None, Some(0), Some(1), Some(2)}
  {
    EveryCallWithin(events, id);
    CallBounded(AnyRun(events).value.calls[id]);
  }

  /** The runs against an endpoint are among them. */
  lemma {:induction false} RunIsAnyRun(accepts: set<nat>, events: seq<Event>)
    requires Run(accepts, events).Some?
    ensures AnyRun(events) == Run(accepts, events)
    decreases |events|
  {
    if events != [] {
      RunIsAnyRun(accepts, events[..|events| - 1]);
    }
  }

  /** So does every call to such an endpoint. */
  lemma EndpointCallIsBounded(accepts: set<nat>, events: seq<Event>, id: nat)
    requires Run(accepts, events).Some? && id in Run(accepts, events).value.calls
    ensures
      var sent := Run(accepts, events).value.calls[id].sent;
      (forall m :: Count(sent, m) <= 4) && TotalSent(sent) <= 12
  {
    RunIsAnyRun(accepts, events);
    EveryCallIsBounded(events, id);
  }

  /** Once the strongest accepted mode is cached, a call that starts then sends
      that mode and no other: the refused attempts are skipped. */
  lemma {:induction false} CachedModeSkipsRefusals(accepts: set<nat>, before: seq<Event>, id: nat, later: seq<Event>)
    requires Run(accepts, before + [Start(id, true)] + later).Some?
    requires Run(accepts, before).Some? && IsStrongest(accepts, Run(accepts, before).value.cache)
    ensures var s := Run(accepts, before + [Start(id, true)] + later).value;
      && id in s.calls
      && s.calls[id].mode == Some(Run(accepts, before).value.cache)
      && s.calls[id].sent.Keys <= {Some(Run(accepts, before).value.cache)}
    decreases |later|
  {
    var run := before + [Start(id, true)] + later;
    var m := Run(accepts, before).value.cache;
    if later == [] {
      assert run[..|run| - 1] == before && run[|run| - 1] == Start(id, true);
    } else {
      var (init, e) := (later[..|later| - 1], later[|later| - 1]);
      assert run[..|run| - 1] == before + [Start(id, true)] + init && run[|run| - 1] == e;
      CachedModeSkipsRefusals(accepts, before, id, init);
      var s := Run(accepts, before + [Start(id, true)] + init).value;
      if e.Answer? && e.id == id {
        assert Answers(accepts, Some(m), e.response);
      }
    }
  }
}
