/** Envelope signing (packages/sdk/src/sign.ts). The clock reading and the
    nonce `randomUUID` returns are parameters. */
module Signer {
  import opened Wrappers
  import opened Types
  import opened Strings
  import opened Primitives
  import opened Jose

  const DefaultAgent := "default"
  const DefaultContentType := "text/plain"
  const Algorithm := "EdDSA"
  const TokenType := "agentcred+jwt"
  const IssuerSuffix := "@agentcred"
  const HashPrefix := "sha256:"
  const EnvelopeVersion := "1.0"
  /** Placeholder for the error `jose` raises when the key cannot sign. */
  const KeyCannotSign := "Key for the EdDSA algorithm must be a private key"

  /** The issuer and key id of a GitHub user: `${github}@agentcred`. */
  function Issuer(github: string): string
  {
    github + IssuerSuffix
  }

  /** Distinct users have distinct issuers. */
  lemma IssuerInjective(g1: string, g2: string)
    ensures Issuer(g1) == Issuer(g2) ==> g1 == g2
  {
    if Issuer(g1) == Issuer(g2) {
      assert |g1| == |g2|;
      assert g1 == Issuer(g1)[..|g1|];
    }
  }

  /** The `content_hash` claim: "sha256:" and the hex digest. */
  function ContentHash(p: Primitives, content: string): string
  {
    HashPrefix + p.sha256Hex(content)
  }

  /** The claim set of a signature made at `nowMs` milliseconds. */
  function MakeClaims(p: Primitives, content: string, github: string, agent: string,
                      contentType: string, nowMs: int, nonce: string): (c: Claims)
    ensures c.iat * 1000 <= nowMs < c.iat * 1000 + 1000
  {
    Claims(Issuer(github), agent, nowMs / 1000, ContentHash(p, content), contentType, nonce)
  }

  function MakeHeader(github: string): Header
  {
    Header(Algorithm, TokenType, Issuer(github))
  }

  /** `sign(content, identity, options)`. Only an Ed25519 private key can
      sign; any other key makes the promise reject. */
  function Sign(p: Primitives, content: string, identity: SignIdentity, options: SignOptions,
                nowMs: int, nonce: string): (r: Result<Envelope>)
    ensures r.Success? <==> identity.privateKey.Ed25519Private?
    ensures r.Success? ==>
      && r.value.content == content
      && r.value.agentcred.v == EnvelopeVersion
      && r.value.agentcred.github == identity.github
      && r.value.agentcred.agent == options.agent.GetOr(DefaultAgent)
  {
    var agent := options.agent.GetOr(DefaultAgent);
    var contentType := options.contentType.GetOr(DefaultContentType);
    var claims := MakeClaims(p, content, identity.github, agent, contentType, nowMs, nonce);
    match identity.privateKey
    case Ed25519Private(d) =>
      var jws := CompactSign(p, MakeHeader(identity.github), claims, d);
      Success(Envelope(Credential(EnvelopeVersion, jws, identity.github, agent), content))
    case _ => Failure(KeyCannotSign)
  }

  /** What the token of a signed envelope carries: verifying it under the
      signer's public key yields the fixed header and a claim set whose issuer
      is the user, whose subject is the envelope's agent, whose hash is that of
      the content, whose type is the resolved content type, and whose `iat` is
      the signing second. */
  lemma SignedToken(p: Primitives, content: string, github: string, d: string,
                    options: SignOptions, nowMs: int, nonce: string)
    requires Sound(p)
    ensures var env := Sign(p, content, SignIdentity(Ed25519Private(d), github), options, nowMs, nonce).value;
      exists c: Claims ::
        && CompactVerify(p, env.agentcred.jws, PublicKey(p.publicOf(d)))
           == Success(Decoded(Header(Algorithm, TokenType, Issuer(github)), p.claimsJson(c)))
        && c.iss == Issuer(github)
        && c.sub == env.agentcred.agent
        && c.contentHash == HashPrefix + p.sha256Hex(content)
        && c.contentType == options.contentType.GetOr(DefaultContentType)
        && c.iat * 1000 <= nowMs < c.iat * 1000 + 1000
        && c.nonce == nonce
  {
    var agent := options.agent.GetOr(DefaultAgent);
    var c := MakeClaims(p, content, github, agent, options.contentType.GetOr(DefaultContentType), nowMs, nonce);
    CompactRoundTrip(p, MakeHeader(github), c, d);
  }

  /** The token is a compact serialisation: three dot-separated segments. */
  lemma SignedTokenHasThreeSegments(p: Primitives, content: string, identity: SignIdentity,
                                    options: SignOptions, nowMs: int, nonce: string)
    requires Sound(p)
    requires identity.privateKey.Ed25519Private?
    ensures |Split(Sign(p, content, identity, options, nowMs, nonce).value.agentcred.jws, '.')| == 3
  {
    var agent := options.agent.GetOr(DefaultAgent);
    var c := MakeClaims(p, content, identity.github, agent, options.contentType.GetOr(DefaultContentType), nowMs, nonce);
    ThreeSegments(p, MakeHeader(identity.github), c, identity.privateKey.d);
  }

  /** Signing the same content twice with different nonces gives the same
      content hash but different tokens. */
  lemma SignTwiceDiffers(p: Primitives, content: string, identity: SignIdentity, options: SignOptions,
                         ms1: int, nonce1: string, ms2: int, nonce2: string)
    requires Sound(p)
    requires identity.privateKey.Ed25519Private?
    requires nonce1 != nonce2
    ensures Sign(p, content, identity, options, ms1, nonce1).value.agentcred.jws
         != Sign(p, content, identity, options, ms2, nonce2).value.agentcred.jws
    ensures var agent := options.agent.GetOr(DefaultAgent);
            var ct := options.contentType.GetOr(DefaultContentType);
      MakeClaims(p, content, identity.github, agent, ct, ms1, nonce1).contentHash
      == MakeClaims(p, content, identity.github, agent, ct, ms2, nonce2).contentHash
  {
    var agent := options.agent.GetOr(DefaultAgent);
    var ct := options.contentType.GetOr(DefaultContentType);
    var h := MakeHeader(identity.github);
    var d := identity.privateKey.d;
    TokenDeterminesClaims(p, h, MakeClaims(p, content, identity.github, agent, ct, ms1, nonce1), d,
                          h, MakeClaims(p, content, identity.github, agent, ct, ms2, nonce2), d);
  }
}
