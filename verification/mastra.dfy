/** The Mastra integration (packages/mastra/src/index.ts): `signedTool`
    wraps a tool so its results come back as signed envelopes, and
    `createAgentCredTools` builds a signing tool and a verifying tool.

    A tool's `execute` is represented by the value its promise resolves to
    (or the error it rejects with); the wrapper is the function from that
    outcome to the wrapped tool's outcome. The clock, the nonce, and for
    verification the registry network, are parameters. */
module Mastra {
  import opened Wrappers
  import opened Types
  import opened Primitives
  import opened Signer
  import Identity
  import Verifier

  const SignedToolMissingOptions := "signedTool requires github and privateKey options"
  const ToolsMissingOptions := "createAgentCredTools requires github and privateKey options"
  const DefaultToolsAgent := "agentcred"
  const SignToolId := "agentcred_sign"
  const VerifyToolId := "agentcred_verify"

  /** `SignedToolOptions`; a missing key is `None`. */
  datatype ToolOptions = ToolOptions(github: string, privateKey: Option<SigningKey>, agent: Option<string>)

  /** A tool's descriptive members: its id, its description and every other
      member except `execute` (input schema and the like). */
  datatype Tool = Tool(id: string, description: string, others: map<string, Json>)

  /** A wrapped tool: the original members and what its `execute` signs
      with. */
  datatype SignedTool = SignedTool(tool: Tool, identity: SignIdentity, signOptions: SignOptions)

  /** What a wrapped `execute` resolves to: the original result, or the
      envelope that replaced it. */
  datatype Output = Original(result: Json) | Signed(envelope: Envelope)

  /** `!options.github || !options.privateKey`: a key object or byte array
      is always truthy, so only a missing key fails. */
  predicate OptionsComplete(options: ToolOptions)
  {
    options.github != "" && options.privateKey.Some?
  }

  /** `signedTool(tool, options)`: the agent defaults to the tool's id. */
  function MakeSignedTool(tool: Tool, options: ToolOptions): (r: Result<SignedTool>)
    ensures r.Failure? <==> !OptionsComplete(options)
    ensures r.Failure? ==> r.error == SignedToolMissingOptions
    ensures r.Success? ==>
      && r.value.tool == tool
      && r.value.identity == SignIdentity(options.privateKey.value, options.github)
      && r.value.signOptions.agent == Some(options.agent.GetOr(tool.id))
  {
    if !OptionsComplete(options) then Failure(SignedToolMissingOptions)
    else Success(SignedTool(tool, SignIdentity(options.privateKey.value, options.github),
                            SignOptions(Some(options.agent.GetOr(tool.id)), None)))
  }

  /** The text that is signed: a string result itself, anything else its
      `JSON.stringify`. */
  function ContentOf(p: Primitives, result: Json): (content: string)
    ensures result.JString? ==> content == result.s
    ensures !result.JString? ==> content == p.jsonText(result)
  {
    if result.JString? then result.s else p.jsonText(result)
  }

  /** The wrapped `execute`, given how the original one settled: a
      rejection passes through, a signature replaces the result, and a
      failed signature falls back to the original result. */
  function Execute(p: Primitives, st: SignedTool, settled: Result<Json>, nowMs: int, nonce: string)
    : (r: Result<Output>)
    ensures settled.Failure? ==> r == Failure(settled.error)
    ensures settled.Success? ==> r.Success?
    ensures settled.Success? && !st.identity.privateKey.Ed25519Private? ==> r == Success(Original(settled.value))
    ensures settled.Success? && st.identity.privateKey.Ed25519Private? ==>
      && r.value.Signed?
      && r.value.envelope.content == ContentOf(p, settled.value)
      && r.value.envelope.agentcred.github == st.identity.github
      && r.value.envelope.agentcred.agent == st.signOptions.agent.GetOr(DefaultAgent)
  {
    var result :- settled;
    match Sign(p, ContentOf(p, result), st.identity, st.signOptions, nowMs, nonce)
    case Failure(_) => Success(Original(result))
    case Success(env) => Success(Signed(env))
  }

  /** A wrapped tool's signed output verifies under the signer's key while
      the verifier's clock is within a day, naming the tool id as agent
      unless another agent was configured; a string result is recovered
      verbatim from the envelope. */
  lemma SignedOutputVerifies(p: Primitives, tool: Tool, github: string, d: string, agent: Option<string>,
                             result: Json, signMs: int, nonce: string, nowMs: int)
    requires Sound(p)
    requires github != ""
    requires Verifier.HasIsoTime(signMs / 1000) && Verifier.InWindow(nowMs / 1000, signMs / 1000)
    ensures var st := MakeSignedTool(tool, ToolOptions(github, Some(Ed25519Private(d)), agent)).value;
      var out := Execute(p, st, Success(result), signMs, nonce).value;
      && out.Signed?
      && Verifier.VerifyOffline(p, out.envelope, PublicKey(p.publicOf(d)), nowMs)
         == Verified(GithubInfo(github, 0, ""), agent.GetOr(tool.id), signMs / 1000)
      && (result.JString? ==> out.envelope.content == result.s)
  {
    var st := MakeSignedTool(tool, ToolOptions(github, Some(Ed25519Private(d)), agent)).value;
    Verifier.SignVerifyRoundTrip(p, ContentOf(p, result), github, d, st.signOptions, signMs, nonce, nowMs);
  }

  // ---------------------------------------------------------------------
  // createAgentCredTools

  /** The closure both tools share. */
  datatype Tools = Tools(identity: SignIdentity, signOptions: SignOptions)

  /** `createAgentCredTools(options)`: the agent defaults to "agentcred". */
  function CreateTools(options: ToolOptions): (r: Result<Tools>)
    ensures r.Failure? <==> !OptionsComplete(options)
    ensures r.Failure? ==> r.error == ToolsMissingOptions
    ensures r.Success? ==>
      && r.value.identity == SignIdentity(options.privateKey.value, options.github)
      && r.value.signOptions.agent == Some(options.agent.GetOr(DefaultToolsAgent))
  {
    if !OptionsComplete(options) then Failure(ToolsMissingOptions)
    else Success(Tools(SignIdentity(options.privateKey.value, options.github),
                       SignOptions(Some(options.agent.GetOr(DefaultToolsAgent)), None)))
  }

  /** The sign tool's input: the content and an optional agent. */
  datatype SignInput = SignInput(content: string, agent: Option<string>)

  /** The options the sign tool uses: a non-empty `input.agent` replaces
      the configured agent. */
  function SignToolOptions(tools: Tools, input: SignInput): (o: SignOptions)
    ensures Truthy(input.agent) ==> o.agent == input.agent
    ensures !Truthy(input.agent) ==> o == tools.signOptions
  {
    if Truthy(input.agent) then tools.signOptions.(agent := input.agent) else tools.signOptions
  }

  /** `agentcred_sign.execute(input)`; signing errors are not caught. */
  function SignTool(p: Primitives, tools: Tools, input: SignInput, nowMs: int, nonce: string)
    : (r: Result<Envelope>)
    ensures r.Success? <==> tools.identity.privateKey.Ed25519Private?
    ensures r.Success? ==>
      && r.value.content == input.content
      && r.value.agentcred.github == tools.identity.github
      && r.value.agentcred.agent ==
           if Truthy(input.agent) then input.agent.value else tools.signOptions.agent.GetOr(DefaultAgent)
  {
    Sign(p, input.content, tools.identity, SignToolOptions(tools, input), nowMs, nonce)
  }

  /** The verify tool's input: the envelope, or its JSON text. */
  datatype EnvelopeInput = EnvelopeText(text: string) | EnvelopeObject(envelope: Envelope)

  /** The message of the `TypeError` that `verify` catches when the parsed
      JSON has no `agentcred` object; the engine's wording is a placeholder. */
  const NotAnEnvelope := "Cannot read properties of undefined (reading 'github')"

  /** `agentcred_verify.execute(input)`: a text is `JSON.parse`d first, and a
      parse error rejects the promise; JSON that is not an envelope reaches
      `verify`, whose catch block resolves it as not verified; an envelope
      is verified against the default registry. */
  function VerifyTool(p: Primitives, net: Identity.Network, apiUrl: string, input: EnvelopeInput, nowMs: int)
    : (r: Result<VerifyResult>)
    ensures input.EnvelopeObject? ==> r == Success(Verifier.Verify(p, net, apiUrl, input.envelope, nowMs))
    ensures input.EnvelopeText? && p.parseEnvelope(input.text).Some? ==>
      r == Success(Verifier.Verify(p, net, apiUrl, p.parseEnvelope(input.text).value, nowMs))
    // only text that is not JSON at all rejects the promise
    ensures input.EnvelopeText? && p.parseEnvelope(input.text).None? ==>
      && (r.Failure? <==> p.parseJson(input.text).None?)
      && (r.Failure? ==> r.error == JsonParseError)
      && (r.Success? ==> r.value == Rejected(NotAnEnvelope))
  {
    match input
    case EnvelopeObject(env) => Success(Verifier.Verify(p, net, apiUrl, env, nowMs))
    case EnvelopeText(text) =>
      // every text that reads as an envelope is JSON, so it is tried first
      match p.parseEnvelope(text)
      case Some(env) => Success(Verifier.Verify(p, net, apiUrl, env, nowMs))
      case None =>
        if p.parseJson(text).None? then Failure(JsonParseError) else Success(Rejected(NotAnEnvelope))
  }

  /** Handing the verify tool an envelope or its JSON text gives the same
      result. */
  lemma VerifyToolAcceptsText(p: Primitives, net: Identity.Network, apiUrl: string, env: Envelope, nowMs: int)
    requires Sound(p)
    ensures VerifyTool(p, net, apiUrl, EnvelopeText(p.envelopeJson(env)), nowMs)
         == VerifyTool(p, net, apiUrl, EnvelopeObject(env), nowMs)
  {
  }

  /** What the sign tool produces, the verify tool accepts once the
      registry serves the signer's key. */
  lemma SignThenVerifyTool(p: Primitives, net: Identity.Network, apiUrl: string, tools: Tools, d: string,
                           input: SignInput, signMs: int, nonce: string, nowMs: int)
    requires Sound(p)
    requires tools.identity.privateKey == Ed25519Private(d)
    requires Identity.ResolvePublicKey(net, apiUrl, tools.identity.github) == Some(PublicJwk(p.publicOf(d)))
    requires Verifier.HasIsoTime(signMs / 1000) && Verifier.InWindow(nowMs / 1000, signMs / 1000)
    ensures var env := SignTool(p, tools, input, signMs, nonce).value;
      VerifyTool(p, net, apiUrl, EnvelopeText(p.envelopeJson(env)), nowMs)
      == Success(Verified(GithubInfo(tools.identity.github, 0, ""), env.agentcred.agent, signMs / 1000))
  {
    var env := SignTool(p, tools, input, signMs, nonce).value;
    var opts := SignToolOptions(tools, input);
    Verifier.VerifyUsesRegistryKey(p, net, apiUrl, env, nowMs, d);
    Verifier.SignVerifyRoundTrip(p, input.content, tools.identity.github, d, opts, signMs, nonce, nowMs);
  }
}
