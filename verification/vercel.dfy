/** The Vercel AI SDK middleware (packages/vercel/src/index.ts): it signs
    the text of a generated result, and appends one signed-envelope chunk
    to a text stream once the stream ends.

    A stream is its chunks in order plus how it ends (normally, or with an
    error after those chunks). The clock and the nonce of the signature made
    at the end are parameters. */
module Vercel {
  import opened Wrappers
  import opened Types
  import opened Primitives
  import opened Signer

  const MissingOptions := "AgentCred middleware requires github and privateKey options"
  const DefaultAgentName := "vercel-ai"
  const TextDeltaType := "text-delta"
  const EnvelopeMarker := "\n\n---AGENTCRED_ENVELOPE---\n"

  /** `AgentCredMiddlewareOptions`; a missing key is `None`. */
  datatype MiddlewareOptions = MiddlewareOptions(github: string, privateKey: Option<SigningKey>,
                                                 agent: Option<string>, signOutputs: Option<bool>)

  /** What the factory closes over. */
  datatype Middleware = Middleware(identity: SignIdentity, signOptions: SignOptions, shouldSign: bool)

  /** `createAgentCredMiddleware(options)`: an empty user name or a missing
      key throws; the agent defaults to "vercel-ai", and only an explicit
      `signOutputs: false` switches signing off. */
  function CreateMiddleware(options: MiddlewareOptions): (r: Result<Middleware>)
    ensures r.Failure? <==> options.github == "" || options.privateKey.None?
    ensures r.Failure? ==> r.error == MissingOptions
    ensures r.Success? ==>
      && r.value.identity == SignIdentity(options.privateKey.value, options.github)
      && r.value.signOptions == SignOptions(Some(options.agent.GetOr(DefaultAgentName)), None)
      && (r.value.shouldSign <==> options.signOutputs != Some(false))
  {
    if options.github == "" || options.privateKey.None? then Failure(MissingOptions)
    else
      Success(Middleware(SignIdentity(options.privateKey.value, options.github),
                         SignOptions(Some(options.agent.GetOr(DefaultAgentName)), None),
                         options.signOutputs != Some(false)))
  }

  // ---------------------------------------------------------------------
  // Generation

  /** A generated result: its optional `text` and every other member. */
  datatype GenerateResult = GenerateResult(text: Option<string>, others: map<string, Json>)

  /** `wrapGenerate` given what `doGenerate` resolved to. A failed signature
      rejects the promise. */
  function WrapGenerate(p: Primitives, mw: Middleware, result: GenerateResult, nowMs: int, nonce: string)
    : (r: Result<GenerateResult>)
    ensures !mw.shouldSign || !Truthy(result.text) ==> r == Success(result)
    ensures r.Failure? <==> mw.shouldSign && Truthy(result.text) && !mw.identity.privateKey.Ed25519Private?
    ensures r.Success? ==> r.value.others == result.others && (r.value.text.Some? <==> result.text.Some?)
  {
    if !mw.shouldSign || !Truthy(result.text) then Success(result)
    else
      var env :- Sign(p, result.text.value, mw.identity, mw.signOptions, nowMs, nonce);
      Success(result.(text := Some(p.envelopeJson(env))))
  }

  /** The signed text reads back as an envelope of the original text, by
      the middleware's user and agent. */
  lemma GenerateRoundTrip(p: Primitives, mw: Middleware, result: GenerateResult, nowMs: int, nonce: string)
    requires Sound(p)
    requires mw.shouldSign && Truthy(result.text) && mw.identity.privateKey.Ed25519Private?
    ensures var r := WrapGenerate(p, mw, result, nowMs, nonce);
      && r.Success? && r.value.text.Some?
      && p.parseEnvelope(r.value.text.value).Some?
      && var env := p.parseEnvelope(r.value.text.value).value;
         && env.content == result.text.value
         && env.agentcred.github == mw.identity.github
         && env.agentcred.agent == mw.signOptions.agent.GetOr(DefaultAgent)
  {
  }

  // ---------------------------------------------------------------------
  // Streaming

  /** A stream chunk: its `type`, its `textDelta` and `delta` members when
      present (of any JSON type), and every other member. */
  datatype Chunk = Chunk(kind: string, textDelta: Option<Json>, delta: Option<Json>, others: map<string, Json>)

  predicate IsText(j: Option<Json>)
  {
    j.Some? && j.value.JString?
  }

  /** `extractDelta(chunk)`: for a text-delta chunk, `textDelta` if it is a
      string (even an empty one), else `delta` if it is a string, else ''. */
  function ExtractDelta(c: Chunk): (r: string)
    ensures c.kind != TextDeltaType ==> r == ""
    ensures r != "" ==> (IsText(c.textDelta) && r == c.textDelta.value.s)
                        || (!IsText(c.textDelta) && IsText(c.delta) && r == c.delta.value.s)
    ensures c.kind == TextDeltaType && IsText(c.textDelta) ==> r == c.textDelta.value.s
  {
    if c.kind != TextDeltaType then ""
    else if IsText(c.textDelta) then c.textDelta.value.s
    else if IsText(c.delta) then c.delta.value.s
    else ""
  }

  /** The text a transform has collected after the given chunks. */
  function Collected(chunks: seq<Chunk>): string
  {
    if |chunks| == 0 then "" else Collected(chunks[..|chunks| - 1]) + ExtractDelta(chunks[|chunks| - 1])
  }

  /** Text is collected chunk by chunk, in order. */
  lemma {:induction false} CollectedAppend(a: seq<Chunk>, b: seq<Chunk>)
    ensures Collected(a + b) == Collected(a) + Collected(b)
    decreases |b|
  {
    if |b| == 0 {
      assert a + b == a;
    } else {
      var b', last := b[..|b| - 1], b[|b| - 1];
      var ab := a + b;
      assert ab[..|ab| - 1] == a + b';
      assert ab[|ab| - 1] == last;
      CollectedAppend(a, b');
      calc {
        Collected(ab);
        Collected(a + b') + ExtractDelta(last);
        (Collected(a) + Collected(b')) + ExtractDelta(last);
        Collected(a) + (Collected(b') + ExtractDelta(last));
        Collected(a) + Collected(b);
      }
    }
  }

  /** A stream: its chunks, and `Some(e)` when it errors with `e` after them. */
  datatype Stream = Stream(chunks: seq<Chunk>, failure: Option<string>)

  /** A stream result: the stream and every other member. */
  datatype StreamResult = StreamResult(stream: Stream, others: map<string, Json>)

  /** The chunk `flush` enqueues. */
  function EnvelopeChunk(serialized: string): Chunk
  {
    Chunk(TextDeltaType, Some(JString(serialized)), Some(JString(serialized)), map[])
  }

  /** The transform stream: every chunk is forwarded as it is; when the
      input ends normally and the collected text is non-empty, `flush` signs
      it and enqueues the envelope chunk. An input error skips `flush` and
      passes through; a failed signature errors the output. */
  function Transform(p: Primitives, mw: Middleware, s: Stream, nowMs: int, nonce: string): (r: Stream)
    ensures |r.chunks| >= |s.chunks| && r.chunks[..|s.chunks|] == s.chunks
    ensures |r.chunks| == |s.chunks| + 1 <==>
      s.failure.None? && Collected(s.chunks) != "" && mw.identity.privateKey.Ed25519Private?
    ensures |r.chunks| <= |s.chunks| + 1
    ensures s.failure.Some? ==> r == s
    // a failed signature errors the output after the forwarded chunks
    ensures s.failure.None? && Collected(s.chunks) != "" && !mw.identity.privateKey.Ed25519Private? ==>
      r == Stream(s.chunks, Some(Sign(p, Collected(s.chunks), mw.identity, mw.signOptions, nowMs, nonce).error))
    // the appended envelope chunk ends the output normally
    ensures |r.chunks| == |s.chunks| + 1 ==> r.failure.None?
  {
    var text := Collected(s.chunks);
    if s.failure.Some? || text == "" then s
    else
      match Sign(p, text, mw.identity, mw.signOptions, nowMs, nonce)
      case Failure(e) => Stream(s.chunks, Some(e))
      case Success(env) =>
        Stream(s.chunks + [EnvelopeChunk(EnvelopeMarker + p.envelopeJson(env))], None)
  }

  /** `pipeThrough(transformStream)`, chunk by chunk: the `transform`
      callback forwards and collects, then `flush` runs at the end. */
  method PipeThrough(p: Primitives, mw: Middleware, s: Stream, nowMs: int, nonce: string) returns (r: Stream)
    ensures r == Transform(p, mw, s, nowMs, nonce)
  {
    var out: seq<Chunk> := [];
    var collected := "";
    for i := 0 to |s.chunks|
      invariant out == s.chunks[..i]
      invariant collected == Collected(s.chunks[..i])
    {
      assert s.chunks[..i + 1][..i] == s.chunks[..i];
      if s.chunks[i].kind == TextDeltaType {
        collected := collected + ExtractDelta(s.chunks[i]);
      }
      out := out + [s.chunks[i]];
    }
    assert s.chunks[..|s.chunks|] == s.chunks;
    if s.failure.Some? || collected == "" {
      return Stream(out, s.failure);
    }
    var signed := Sign(p, collected, mw.identity, mw.signOptions, nowMs, nonce);
    if signed.Failure? {
      return Stream(out, Some(signed.error));
    }
    r := Stream(out + [EnvelopeChunk(EnvelopeMarker + p.envelopeJson(signed.value))], None);
  }

  /** `wrapStream` given what `doStream` resolved to. */
  function WrapStream(p: Primitives, mw: Middleware, result: StreamResult, nowMs: int, nonce: string)
    : (r: StreamResult)
    ensures !mw.shouldSign ==> r == result
    ensures r.others == result.others
    ensures |r.stream.chunks| >= |result.stream.chunks|
    ensures r.stream.chunks[..|result.stream.chunks|] == result.stream.chunks
  {
    if !mw.shouldSign then result
    else result.(stream := Transform(p, mw, result.stream, nowMs, nonce))
  }

  /** Reading a signed stream: its text is the original text, the marker
      and the JSON of an envelope whose content is the original text, and
      the appended chunk carries that marker and JSON in both members. */
  lemma StreamRoundTrip(p: Primitives, mw: Middleware, s: Stream, nowMs: int, nonce: string)
    requires Sound(p)
    requires s.failure.None? && Collected(s.chunks) != "" && mw.identity.privateKey.Ed25519Private?
    ensures var r := Transform(p, mw, s, nowMs, nonce);
      var env := Sign(p, Collected(s.chunks), mw.identity, mw.signOptions, nowMs, nonce).value;
      var serialized := EnvelopeMarker + p.envelopeJson(env);
      && r == Stream(s.chunks + [EnvelopeChunk(serialized)], None)
      && Collected(r.chunks) == Collected(s.chunks) + serialized
      && p.parseEnvelope(p.envelopeJson(env)) == Some(env)
      && env.content == Collected(s.chunks)
      && env.agentcred.agent == mw.signOptions.agent.GetOr(DefaultAgent)
  {
    var env := Sign(p, Collected(s.chunks), mw.identity, mw.signOptions, nowMs, nonce).value;
    var serialized := EnvelopeMarker + p.envelopeJson(env);
    CollectedAppend(s.chunks, [EnvelopeChunk(serialized)]);
    assert Collected([EnvelopeChunk(serialized)]) == serialized by {
      assert [EnvelopeChunk(serialized)][..0] == [];
    }
  }

  /** The example of the middleware's own usage: a start chunk, a `delta`
      of "Hello", a `textDelta` of " world" and an end chunk collect
      "Hello world". */
  lemma CollectsBothDeltaMembers()
    ensures Collected([Chunk("text-start", None, None, map[]),
                       Chunk(TextDeltaType, None, Some(JString("Hello")), map[]),
                       Chunk(TextDeltaType, Some(JString(" world")), None, map[]),
                       Chunk("text-end", None, None, map[])]) == "Hello world"
  {
    var c0 := Chunk("text-start", None, None, map[]);
    var c1 := Chunk(TextDeltaType, None, Some(JString("Hello")), map[]);
    var c2 := Chunk(TextDeltaType, Some(JString(" world")), None, map[]);
    var c3 := Chunk("text-end", None, None, map[]);
    var s := [c0, c1, c2, c3];
    assert s[..3] == [c0, c1, c2] && [c0, c1, c2][..2] == [c0, c1] && [c0, c1][..1] == [c0] && [c0][..0] == [];
    assert Collected([c0]) == "";
    assert Collected([c0, c1]) == "Hello";
    assert Collected([c0, c1, c2]) == "Hello" + " world";
  }
}
