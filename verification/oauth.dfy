/** The GitHub device authorisation flow (packages/sdk/src/oauth.ts), the
    client side of sections 3.4 and 3.5 of RFC 8628: request a device code,
    show the user code, then poll the token endpoint.

    Time is explicit. The poll loop reads the clock before each wait; the
    clock then advances by the timer delay and by the time the token request
    took, which each scripted step carries. The token endpoint is a script
    of answers, one per request, and each answer is a function of the form
    body the request carries, so what the loop reads depends on the device
    code and client id it sends. The script is finite, so a run that
    outlives it ends as `Unresolved`. */
module OAuth {
  import opened Wrappers
  import opened Types

  const DefaultClientId := "Ov23lilcYBamYnpi7qNb"
  const DeviceCodeUrl := "https://github.com/login/device/code"
  const DeviceCodeGrantType := "urn:ietf:params:oauth:grant-type:device_code"
  const DeviceCodeFailed := "Failed to request device code"
  const DeviceCodeExpired := "Device code expired"
  const PollFailed := "Failed to poll for access token"
  const UserDenied := "User denied authorization"
  const OAuthErrorPrefix := "OAuth error: "
  const SlowDownSeconds := 5
  /** Node's timers run a delay outside [1, 2^31 - 1] ms after 1 ms. */
  const MaxTimerDelay := 0x7FFF_FFFF

  /** `process.env.AGENTCRED_CLIENT_ID ?? 'Ov23lilcYBamYnpi7qNb'`, then the
      caller's `clientId ?? AGENTCRED_CLIENT_ID`. */
  function ClientId(explicit: Option<string>, environment: Option<string>): (r: string)
    ensures explicit.Some? ==> r == explicit.value
    ensures explicit.None? ==> r == environment.GetOr(DefaultClientId)
  {
    explicit.GetOr(environment.GetOr(DefaultClientId))
  }

  /** The fields of the device authorisation response. */
  datatype DeviceCode = DeviceCode(deviceCode: string, userCode: string, verificationUri: string,
                                   expiresIn: int, interval: int)

  /** `requestDeviceCode(clientId)` against a network that answers the form
      body it is sent. */
  function RequestDeviceCode(clientId: string, network: string -> Reply<DeviceCode>): (r: Result<DeviceCode>)
    ensures var reply := network("client_id=" + clientId);
      && (reply.Reply? && !reply.ok ==> r == Failure(DeviceCodeFailed))
      && (r.Success? <==> reply.Reply? && reply.ok && reply.body.Some?)
      && (r.Success? ==> r.value == reply.body.value)
  {
    match network("client_id=" + clientId)
    case NetworkError(m) => Failure(m)
    case Reply(ok, body) =>
      if !ok then Failure(DeviceCodeFailed)
      else match body
        case None => Failure(JsonParseError)
        case Some(code) => Success(code)
  }

  /** The token endpoint's JSON body (`Record<string, string>`): the members
      the loop reads, each possibly absent. */
  datatype TokenData = TokenData(error: Option<string>, accessToken: Option<string>, tokenType: Option<string>)

  /** The form body of every token request the loop sends. */
  function TokenRequestBody(clientId: string, deviceCode: string): string
  {
    "client_id=" + clientId + "&device_code=" + deviceCode + "&grant_type=" + DeviceCodeGrantType
  }

  /** One poll: how long the request took, and how the token endpoint
      answers a request with a given form body. */
  datatype PollStep = PollStep(latencyMs: nat, answer: string -> Reply<TokenData>)

  /** `DeviceFlowResult`; either member may be undefined. */
  datatype Grant = Grant(accessToken: Option<string>, tokenType: Option<string>)

  datatype PollEnd = Granted(grant: Grant) | Failed(message: string) | Unresolved

  /** How the loop ended, and the interval (seconds) it waited before each
      request, in order. */
  datatype PollOutcome = PollOutcome(end: PollEnd, waits: seq<int>)

  /** The delay `setTimeout(resolve, ms)` actually waits. */
  function TimerDelay(ms: int): (r: int)
    ensures 1 <= r <= MaxTimerDelay
    ensures 1 <= ms <= MaxTimerDelay ==> r == ms
  {
    if 1 <= ms <= MaxTimerDelay then ms else 1
  }

  /** The message a truthy `error` member ends the loop with, or `None` for
      the two codes that continue it. */
  function ErrorMessage(code: string): (r: Option<string>)
    ensures r.None? <==> code == "authorization_pending" || code == "slow_down"
  {
    if code == "authorization_pending" || code == "slow_down" then None
    else if code == "expired_token" then Some(DeviceCodeExpired)
    else if code == "access_denied" then Some(UserDenied)
    else Some(OAuthErrorPrefix + code)
  }

  /** What a single reply does to the loop. */
  datatype Step = Continue(newInterval: int) | Stop(end: PollEnd)

  function Classify(interval: int, reply: Reply<TokenData>): (r: Step)
    ensures reply.NetworkError? ==> r == Stop(Failed(reply.message))
    ensures reply.Reply? && !reply.ok ==> r == Stop(Failed(PollFailed))
    ensures reply.Reply? && reply.ok && reply.body.None? ==> r == Stop(Failed(JsonParseError))
    // an absent or empty `error` grants whatever token the reply carries
    ensures reply.Reply? && reply.ok && reply.body.Some? && !Truthy(reply.body.value.error) ==>
      r == Stop(Granted(Grant(reply.body.value.accessToken, reply.body.value.tokenType)))
    // a truthy `error` continues exactly for the two waiting codes
    ensures reply.Reply? && reply.ok && reply.body.Some? && Truthy(reply.body.value.error) ==>
      var code := reply.body.value.error.value;
      && (r.Continue? <==> ErrorMessage(code).None?)
      && (r.Stop? ==> r == Stop(Failed(ErrorMessage(code).value)))
      && (r.Continue? ==> r.newInterval == if code == "slow_down" then interval + SlowDownSeconds else interval)
    ensures r.Stop? ==> !r.end.Unresolved?
  {
    match reply
    case NetworkError(m) => Stop(Failed(m))
    case Reply(ok, body) =>
      if !ok then Stop(Failed(PollFailed))
      else if body.None? then Stop(Failed(JsonParseError))
      else
        var data := body.value;
        if Truthy(data.error) then
          var code := data.error.value;
          if code == "authorization_pending" then Continue(interval)
          else if code == "slow_down" then Continue(interval + SlowDownSeconds)
          else Stop(Failed(ErrorMessage(code).value))
        else Stop(Granted(Grant(data.accessToken, data.tokenType)))
  }

  /** `pollForAccessToken` sending `body`, started at `startMs`, with the
      clock at `nowMs` and the current interval `interval`, against the
      remaining script. */
  function Poll(body: string, interval: int, expiresIn: int, startMs: int, nowMs: int, steps: seq<PollStep>)
    : (r: PollOutcome)
    ensures |r.waits| <= |steps|
    ensures nowMs - startMs >= expiresIn * 1000 ==> r == PollOutcome(Failed(DeviceCodeExpired), [])
    ensures |r.waits| > 0 ==> r.waits[0] == interval
    ensures forall k :: 0 <= k < |r.waits| ==> r.waits[k] >= interval
    decreases |steps|
  {
    if nowMs - startMs >= expiresIn * 1000 then PollOutcome(Failed(DeviceCodeExpired), [])
    else if |steps| == 0 then PollOutcome(Unresolved, [])
    else
      var later := nowMs + TimerDelay(interval * 1000) + steps[0].latencyMs;
      match Classify(interval, steps[0].answer(body))
      case Stop(end) => PollOutcome(end, [interval])
      case Continue(next) =>
        var rest := Poll(body, next, expiresIn, startMs, later, steps[1..]);
        PollOutcome(rest.end, [interval] + rest.waits)
  }

  /** Whether two scripts answer `body` alike, step by step. */
  ghost predicate AnswerAlike(body: string, steps: seq<PollStep>, steps': seq<PollStep>)
  {
    && |steps| == |steps'|
    && forall k :: 0 <= k < |steps| ==>
         steps[k].latencyMs == steps'[k].latencyMs && steps[k].answer(body) == steps'[k].answer(body)
  }

  /** The loop reads nothing but the answers to the body it sends: how the
      endpoint would answer another device code or client id is irrelevant. */
  lemma {:induction false} PollReadsOnlyItsBody(body: string, interval: int, expiresIn: int, startMs: int,
                                               nowMs: int, steps: seq<PollStep>, steps': seq<PollStep>)
    requires AnswerAlike(body, steps, steps')
    ensures Poll(body, interval, expiresIn, startMs, nowMs, steps)
         == Poll(body, interval, expiresIn, startMs, nowMs, steps')
    decreases |steps|
  {
    if nowMs - startMs < expiresIn * 1000 && |steps| > 0 {
      assert steps[0].answer(body) == steps'[0].answer(body);
      var later := nowMs + TimerDelay(interval * 1000) + steps[0].latencyMs;
      match Classify(interval, steps[0].answer(body))
      case Stop(_) =>
      case Continue(next) =>
        assert AnswerAlike(body, steps[1..], steps'[1..]) by {
          forall k | 0 <= k < |steps| - 1
            ensures steps[1..][k].latencyMs == steps'[1..][k].latencyMs
            ensures steps[1..][k].answer(body) == steps'[1..][k].answer(body)
          {
            assert steps[1..][k] == steps[k + 1] && steps'[1..][k] == steps'[k + 1];
          }
        }
        PollReadsOnlyItsBody(body, next, expiresIn, startMs, later, steps[1..], steps'[1..]);
    }
  }

  /** Whether a step answers `body` with a `slow_down`. */
  predicate IsSlowDown(body: string, step: PollStep)
  {
    var reply := step.answer(body);
    reply.Reply? && reply.ok && reply.body.Some? && reply.body.value.error == Some("slow_down")
  }

  function SlowDowns(body: string, steps: seq<PollStep>): nat
    decreases |steps|
  {
    if |steps| == 0 then 0 else (if IsSlowDown(body, steps[0]) then 1 else 0) + SlowDowns(body, steps[1..])
  }

  /** The k-th wait is the initial interval plus five seconds for every
      `slow_down` answered before it. */
  lemma {:induction false} WaitsCountSlowDowns(body: string, interval: int, expiresIn: int, startMs: int,
                                              nowMs: int, steps: seq<PollStep>, k: nat)
    requires k < |Poll(body, interval, expiresIn, startMs, nowMs, steps).waits|
    ensures Poll(body, interval, expiresIn, startMs, nowMs, steps).waits[k]
         == interval + SlowDownSeconds * SlowDowns(body, steps[..k])
    decreases |steps|
  {
    if k > 0 {
      var later := nowMs + TimerDelay(interval * 1000) + steps[0].latencyMs;
      var next := Classify(interval, steps[0].answer(body)).newInterval;
      assert next == interval + (if IsSlowDown(body, steps[0]) then SlowDownSeconds else 0);
      WaitsCountSlowDowns(body, next, expiresIn, startMs, later, steps[1..], k - 1);
      assert steps[..k][1..] == steps[1..][..k - 1];
    }
  }

  /** The interval never shrinks. */
  lemma {:induction false} WaitsNeverDecrease(body: string, interval: int, expiresIn: int, startMs: int,
                                             nowMs: int, steps: seq<PollStep>, i: nat, j: nat)
    requires i <= j < |Poll(body, interval, expiresIn, startMs, nowMs, steps).waits|
    ensures Poll(body, interval, expiresIn, startMs, nowMs, steps).waits[i]
         <= Poll(body, interval, expiresIn, startMs, nowMs, steps).waits[j]
    decreases |steps|
  {
    if i > 0 {
      var later := nowMs + TimerDelay(interval * 1000) + steps[0].latencyMs;
      var next := Classify(interval, steps[0].answer(body)).newInterval;
      WaitsNeverDecrease(body, next, expiresIn, startMs, later, steps[1..], i - 1, j - 1);
    }
  }

  /** Every wait advances the clock by at least a millisecond, so a script
      long enough to cover the expiry window never runs out: the loop ends
      with a grant or a failure. */
  lemma {:induction false} PollEndsBeforeScriptRunsOut(body: string, interval: int, expiresIn: int,
                                                       startMs: int, nowMs: int, steps: seq<PollStep>)
    requires |steps| >= expiresIn * 1000 - (nowMs - startMs)
    ensures !Poll(body, interval, expiresIn, startMs, nowMs, steps).end.Unresolved?
    decreases |steps|
  {
    if nowMs - startMs < expiresIn * 1000 && |steps| > 0 {
      var later := nowMs + TimerDelay(interval * 1000) + steps[0].latencyMs;
      match Classify(interval, steps[0].answer(body))
      case Stop(_) =>
      case Continue(next) =>
        PollEndsBeforeScriptRunsOut(body, next, expiresIn, startMs, later, steps[1..]);
    }
  }

  /** An outcome with earlier waits put in front. */
  function Prefixed(waits: seq<int>, o: PollOutcome): PollOutcome
  {
    PollOutcome(o.end, waits + o.waits)
  }

  /** One turn of the loop, read off `Poll`, with the waits so far put in
      front: a stop ends the outcome, a continuation carries on from the
      rest of the script. */
  lemma PollUnfold(body: string, interval: int, expiresIn: int, startMs: int, nowMs: int,
                   steps: seq<PollStep>, i: nat, waits: seq<int>)
    requires i < |steps| && nowMs - startMs < expiresIn * 1000
    ensures var later := nowMs + TimerDelay(interval * 1000) + steps[i].latencyMs;
      var step := Classify(interval, steps[i].answer(body));
      var whole := Prefixed(waits, Poll(body, interval, expiresIn, startMs, nowMs, steps[i..]));
      && (step.Stop? ==> whole == PollOutcome(step.end, waits + [interval]))
      && (step.Continue? ==>
            whole == Prefixed(waits + [interval], Poll(body, step.newInterval, expiresIn, startMs, later, steps[i + 1..])))
  {
  }

  /** `pollForAccessToken(deviceCode, interval, expiresIn, clientId)` as the
      source writes it: resolve the client id, then a loop that checks the
      clock, waits, asks with the device code and client id, and continues
      or returns. */
  method PollLoop(deviceCode: string, interval: int, expiresIn: int, clientId: Option<string>,
                  environment: Option<string>, startMs: int, steps: seq<PollStep>)
    returns (r: PollOutcome)
    ensures r == Poll(TokenRequestBody(ClientId(clientId, environment), deviceCode),
                      interval, expiresIn, startMs, startMs, steps)
  {
    var body := TokenRequestBody(ClientId(clientId, environment), deviceCode);
    var pollInterval := interval;
    var now := startMs;
    var i := 0;
    var waits: seq<int> := [];
    while true
      invariant 0 <= i <= |steps|
      invariant Prefixed(waits, Poll(body, pollInterval, expiresIn, startMs, now, steps[i..]))
             == Poll(body, interval, expiresIn, startMs, startMs, steps)
      decreases |steps| - i
    {
      if now - startMs >= expiresIn * 1000 {
        return PollOutcome(Failed(DeviceCodeExpired), waits);
      }
      if i == |steps| {
        return PollOutcome(Unresolved, waits);
      }
      var later := now + TimerDelay(pollInterval * 1000) + steps[i].latencyMs;
      var step := Classify(pollInterval, steps[i].answer(body));
      PollUnfold(body, pollInterval, expiresIn, startMs, now, steps, i, waits);
      if step.Stop? {
        return PollOutcome(step.end, waits + [pollInterval]);
      }
      waits := waits + [pollInterval];
      pollInterval := step.newInterval;
      now := later;
      i := i + 1;
    }
  }

  function Answer(error: string): Reply<TokenData>
  {
    Reply(true, Some(TokenData(Some(error), None, None)))
  }

  /** `expired_token` ends the loop as an expired code. */
  lemma ExpiredTokenCode(interval: int)
    ensures Classify(interval, Answer("expired_token")) == Stop(Failed(DeviceCodeExpired))
  {
    var c := "expired_token";
    assert c != "authorization_pending" by { assert c[0] != "authorization_pending"[0]; }
    assert c != "slow_down" by { assert c[0] != "slow_down"[0]; }
  }

  /** `access_denied` ends the loop as a refusal. */
  lemma AccessDeniedCode(interval: int)
    ensures Classify(interval, Answer("access_denied")) == Stop(Failed(UserDenied))
  {
    var c := "access_denied";
    assert c != "authorization_pending" by { assert c[1] != "authorization_pending"[1]; }
    assert c != "slow_down" by { assert c[0] != "slow_down"[0]; }
    assert c != "expired_token" by { assert c[0] != "expired_token"[0]; }
  }

  /** Any other code ends the loop with "OAuth error: " and the code. */
  lemma OtherErrorCode(interval: int, code: string)
    requires code != "" && code != "authorization_pending" && code != "slow_down"
    requires code != "expired_token" && code != "access_denied"
    ensures Classify(interval, Answer(code)) == Stop(Failed(OAuthErrorPrefix + code))
  {
  }

  /** `authorization_pending` continues with the same interval and
      `slow_down` with five seconds more. */
  lemma ContinuingErrorCodes(interval: int)
    ensures Classify(interval, Answer("authorization_pending")) == Continue(interval)
    ensures Classify(interval, Answer("slow_down")) == Continue(interval + 5)
  {
    assert "slow_down"[0] != "authorization_pending"[0];
  }

  /** A reply whose `error` is empty is not an error: the loop returns the
      (possibly absent) token. */
  lemma EmptyErrorIsGrant(interval: int, token: Option<string>, tokenType: Option<string>)
    ensures Classify(interval, Reply(true, Some(TokenData(Some(""), token, tokenType))))
         == Stop(Granted(Grant(token, tokenType)))
  {
  }

  /** A step that answers every request alike. */
  function Always(reply: Reply<TokenData>): PollStep
  {
    PollStep(0, _ => reply)
  }

  /** A pending reply, then a grant: two waits of the initial interval and
      the granted token. */
  lemma PendingThenGranted(body: string)
    ensures var pending := Always(Answer("authorization_pending"));
      var granted := Always(Reply(true, Some(TokenData(None, Some("gho_token"), Some("bearer")))));
      Poll(body, 1, 900, 0, 0, [pending, granted])
      == PollOutcome(Granted(Grant(Some("gho_token"), Some("bearer"))), [1, 1])
  {
    ContinuingErrorCodes(1);
  }

  /** With a three-second code and a one-second interval, three pending
      replies use the window up and the fourth check reports expiry. */
  lemma PendingUntilExpired(body: string)
    ensures var pending := Always(Answer("authorization_pending"));
      Poll(body, 1, 3, 0, 0, [pending, pending, pending, pending])
      == PollOutcome(Failed(DeviceCodeExpired), [1, 1, 1])
  {
    var pending := Always(Answer("authorization_pending"));
    ContinuingErrorCodes(1);
    var s := [pending, pending, pending, pending];
    assert s[1..] == [pending, pending, pending];
    assert s[1..][1..] == [pending, pending];
    assert s[1..][1..][1..] == [pending];
    assert Poll(body, 1, 3, 0, 3000, [pending]) == PollOutcome(Failed(DeviceCodeExpired), []);
    assert Poll(body, 1, 3, 0, 2000, [pending, pending]) == PollOutcome(Failed(DeviceCodeExpired), [1]);
    assert Poll(body, 1, 3, 0, 1000, [pending, pending, pending]) == PollOutcome(Failed(DeviceCodeExpired), [1, 1]);
  }

  // ---------------------------------------------------------------------
  // startDeviceFlow

  /** Whether the caller passed `onUserCode`. */
  datatype FlowOptions = FlowOptions(clientId: Option<string>, hasUserCodeCallback: bool)

  /** What the flow does that can be observed; `Polled` records the form
      body of the token requests and the waits before them. */
  datatype FlowEvent =
    | UserCodeShown(userCode: string, verificationUri: string)
    | Printed(text: string)
    | BrowserAttempted(url: string)
    | Polled(body: string, waits: seq<int>)

  /** How `startDeviceFlow` ends: the access token, or a rejection. */
  datatype FlowEnd = AccessToken(token: Option<string>) | FlowFailed(message: string) | FlowUnresolved

  datatype FlowOutcome = FlowOutcome(end: FlowEnd, events: seq<FlowEvent>)

  /** `startDeviceFlow(options)` started at `startMs`. Whether opening the
      browser fails does not enter: its failure is swallowed. */
  function StartDeviceFlow(options: FlowOptions, environment: Option<string>,
                           network: string -> Reply<DeviceCode>, startMs: int,
                           steps: seq<PollStep>): (r: FlowOutcome)
    ensures RequestDeviceCode(ClientId(options.clientId, environment), network).Failure? ==>
      r == FlowOutcome(FlowFailed(RequestDeviceCode(ClientId(options.clientId, environment), network).error), [])
    ensures RequestDeviceCode(ClientId(options.clientId, environment), network).Success? ==>
      var cid := ClientId(options.clientId, environment);
      var code := RequestDeviceCode(cid, network).value;
      // the token requests carry the issued device code and the client id
      // the device code was requested with
      var body := TokenRequestBody(cid, code.deviceCode);
      var polled := Poll(body, code.interval, code.expiresIn, startMs, startMs, steps);
      && |r.events| == 3
      && (if options.hasUserCodeCallback then r.events[0] == UserCodeShown(code.userCode, code.verificationUri)
          else r.events[0].Printed?)
      && r.events[1] == BrowserAttempted(code.verificationUri)
      && r.events[2] == Polled(body, polled.waits)
      && (polled.end.Granted? <==> r.end.AccessToken?)
      && (polled.end.Granted? ==> r.end.token == polled.end.grant.accessToken)
      // a polling failure is the flow's own rejection, with its message
      && (polled.end.Failed? ==> r.end == FlowFailed(polled.end.message))
      && (polled.end.Unresolved? ==> r.end == FlowUnresolved)
  {
    var cid := ClientId(options.clientId, environment);
    match RequestDeviceCode(cid, network)
    case Failure(e) => FlowOutcome(FlowFailed(e), [])
    case Success(code) =>
      var shown :=
        if options.hasUserCodeCallback then UserCodeShown(code.userCode, code.verificationUri)
        else Printed("\nOpen " + code.verificationUri + " and enter code: " + code.userCode + "\n");
      var body := TokenRequestBody(cid, code.deviceCode);
      var polled := Poll(body, code.interval, code.expiresIn, startMs, startMs, steps);
      var events := [shown, BrowserAttempted(code.verificationUri), Polled(body, polled.waits)];
      match polled.end
      case Granted(grant) => FlowOutcome(AccessToken(grant.accessToken), events)
      case Failed(m) => FlowOutcome(FlowFailed(m), events)
      case Unresolved => FlowOutcome(FlowUnresolved, events)
  }

  /** A token endpoint that grants only the device code GitHub issued, to
      the client that asked for it, and refuses any other request. */
  function GrantsOnly(clientId: string, deviceCode: string): PollStep
  {
    PollStep(0, body =>
      if body == TokenRequestBody(clientId, deviceCode)
      then Reply(true, Some(TokenData(None, Some("gho_token"), Some("bearer"))))
      else Answer("incorrect_device_code"))
  }

  /** The flow asks for the token with the device code it was issued: an
      endpoint that grants only that code under that client id yields the
      token. */
  lemma FlowPollsWithIssuedCode(clientId: string, environment: Option<string>, code: DeviceCode, startMs: int)
    requires code.expiresIn > 0
    ensures var network := (body: string) => Reply(true, Some(code));
      StartDeviceFlow(FlowOptions(Some(clientId), true), environment, network, startMs,
                      [GrantsOnly(clientId, code.deviceCode)]).end
      == AccessToken(Some("gho_token"))
  {
  }

  /** The flow's outcome depends on the token endpoint only through its
      answers to the request for the issued device code. */
  lemma FlowReadsOnlyIssuedCode(options: FlowOptions, environment: Option<string>,
                                network: string -> Reply<DeviceCode>, startMs: int,
                                steps: seq<PollStep>, steps': seq<PollStep>)
    requires var cid := ClientId(options.clientId, environment);
      var code := RequestDeviceCode(cid, network);
      code.Success? ==> AnswerAlike(TokenRequestBody(cid, code.value.deviceCode), steps, steps')
    ensures StartDeviceFlow(options, environment, network, startMs, steps)
         == StartDeviceFlow(options, environment, network, startMs, steps')
  {
    var cid := ClientId(options.clientId, environment);
    var code := RequestDeviceCode(cid, network);
    if code.Success? {
      var c := code.value;
      PollReadsOnlyItsBody(TokenRequestBody(cid, c.deviceCode), c.interval, c.expiresIn, startMs, startMs, steps, steps');
    }
  }
}
