/** Envelope verification (packages/sdk/src/verify.ts). `verifyOffline`
    runs a fixed pipeline (signature and algorithm, content hash, issuer,
    time window) and `verify` first resolves the signer's key from the
    registry. Both catch every exception, so both are total functions to a
    `VerifyResult`; an exception's message becomes the error. */
module Verifier {
  import opened Wrappers
  import opened Types
  import opened Strings
  import opened Primitives
  import opened Jose
  import opened Signer
  import Identity

  const InvalidAlgorithm := "Invalid algorithm"
  const HashMismatch := "Content hash mismatch"
  const IssuerMismatch := "Issuer mismatch"
  const OutsideWindow := "Timestamp outside valid window"
  const PublicKeyNotFound := "Public key not found"
  /** The RangeError `timingSafeEqual` throws for buffers of unequal size. */
  const ByteLengthError := "Input buffers must have the same byte length"
  /** The RangeError `toISOString` throws outside the Date range. */
  const InvalidTimeValue := "Invalid time value"

  /** The accepted clock skew, in seconds. */
  const WindowSeconds := 86400
  /** The largest magnitude, in milliseconds, a JavaScript Date can hold. */
  const MaxDateMs := 8_640_000_000_000_000

  /** `|now - iat| <= 86400`. */
  predicate InWindow(nowSec: int, iat: int)
  {
    -WindowSeconds <= nowSec - iat <= WindowSeconds
  }

  /** `new Date(iat * 1000).toISOString()` does not throw. */
  predicate HasIsoTime(iat: int)
  {
    -MaxDateMs <= iat * 1000 <= MaxDateMs
  }

  /** The hash comparison: the `.length` (UTF-16) test first, then
      `timingSafeEqual` of the UTF-8 buffers, which throws when their byte
      lengths differ and otherwise compares the bytes (UTF-8 is injective, so
      that is string equality). `None` means the check passes. */
  function HashCheck(actual: string, expected: string): (r: Option<string>)
    ensures r.None? <==> actual == expected
    ensures r.Some? ==> r.value == HashMismatch || r.value == ByteLengthError
  {
    if |Utf16(actual)| != |Utf16(expected)| then Some(HashMismatch)
    else if Utf8Length(actual) != Utf8Length(expected) then Some(ByteLengthError)
    else if actual != expected then Some(HashMismatch)
    else None
  }

  predicate IsAscii(s: string)
  {
    forall k :: 0 <= k < |s| ==> s[k] as int < 0x80
  }

  /** An ASCII string has one UTF-16 unit and one UTF-8 byte per character. */
  lemma {:induction false} AsciiLengths(s: string)
    requires IsAscii(s)
    ensures |Utf16(s)| == |s| && Utf8Length(s) == |s|
    decreases |s|
  {
    if |s| > 0 {
      assert IsAscii(s[1..]);
      AsciiLengths(s[1..]);
    }
  }

  lemma HexIsAscii(h: string)
    requires IsLowerHex(h)
    ensures IsAscii(h)
  {
    forall k | 0 <= k < |h| ensures h[k] as int < 0x80 {
      assert h[k] in HexDigits;
    }
  }

  /** Two different digests always fail the comparison with the hash
      mismatch message, never the byte-length error. */
  lemma DigestsCompare(a: string, b: string)
    requires IsLowerHex(a) && IsLowerHex(b)
    ensures HashCheck(a, b) == if a == b then None else Some(HashMismatch)
  {
    HexIsAscii(a);
    HexIsAscii(b);
    AsciiLengths(a);
    AsciiLengths(b);
  }

  /** `verifyOffline(envelope, publicKey)` at `nowMs` milliseconds. */
  function VerifyOffline(p: Primitives, env: Envelope, key: PublicKey, nowMs: int): (r: VerifyResult)
    // the checks run in order, and the first that fails names the error
    ensures var decoded := CompactVerify(p, env.agentcred.jws, key);
      && (decoded.Failure? ==> r == Rejected(decoded.error))
      && (decoded.Success? && decoded.value.header.alg != Algorithm ==> r == Rejected(InvalidAlgorithm))
      && (decoded.Success? && decoded.value.header.alg == Algorithm ==>
            match p.parseClaims(decoded.value.payload)
            case None => r == Rejected(JsonParseError)
            case Some(c) =>
              var hashed := HashCheck(p.sha256Hex(env.content), ReplaceFirst(c.contentHash, HashPrefix, ""));
              && (hashed.Some? ==> r == Rejected(hashed.value))
              && (hashed.None? && c.iss != Issuer(env.agentcred.github) ==> r == Rejected(IssuerMismatch))
              && (hashed.None? && c.iss == Issuer(env.agentcred.github) ==>
                    && (!InWindow(nowMs / 1000, c.iat) ==> r == Rejected(OutsideWindow))
                    && (InWindow(nowMs / 1000, c.iat) && !HasIsoTime(c.iat) ==> r == Rejected(InvalidTimeValue))
                    && (InWindow(nowMs / 1000, c.iat) && HasIsoTime(c.iat) ==>
                          r == Verified(GithubInfo(env.agentcred.github, 0, ""), c.sub, c.iat))))
    ensures r.Verified? ==>
      && r.github == GithubInfo(env.agentcred.github, 0, "")
      && CompactVerify(p, env.agentcred.jws, key).Success?
      && CompactVerify(p, env.agentcred.jws, key).value.header.alg == Algorithm
      && p.parseClaims(CompactVerify(p, env.agentcred.jws, key).value.payload).Some?
      && var c := p.parseClaims(CompactVerify(p, env.agentcred.jws, key).value.payload).value;
         && ReplaceFirst(c.contentHash, HashPrefix, "") == p.sha256Hex(env.content)
         && c.iss == Issuer(env.agentcred.github)
         && InWindow(nowMs / 1000, c.iat)
         && r.agent == c.sub
         && r.signedAt == c.iat
  {
    match CompactVerify(p, env.agentcred.jws, key)
    case Failure(e) => Rejected(e)
    case Success(decoded) =>
      if decoded.header.alg != Algorithm then Rejected(InvalidAlgorithm)
      else
        match p.parseClaims(decoded.payload)
        case None => Rejected(JsonParseError)
        case Some(c) =>
          match HashCheck(p.sha256Hex(env.content), ReplaceFirst(c.contentHash, HashPrefix, ""))
          case Some(e) => Rejected(e)
          case None =>
            if c.iss != Issuer(env.agentcred.github) then Rejected(IssuerMismatch)
            else if !InWindow(nowMs / 1000, c.iat) then Rejected(OutsideWindow)
            else if !HasIsoTime(c.iat) then Rejected(InvalidTimeValue)
            else Verified(GithubInfo(env.agentcred.github, 0, ""), c.sub, c.iat)
  }

  /** `verify(envelope, config)`: resolve the signer's key from the registry,
      import it, and hand over to `VerifyOffline`. */
  function Verify(p: Primitives, net: Identity.Network, apiUrl: string, env: Envelope, nowMs: int): (r: VerifyResult)
    ensures Identity.ResolvePublicKey(net, apiUrl, env.agentcred.github).None? ==> r == Rejected(PublicKeyNotFound)
    ensures r.Verified? ==>
      var jwk := Identity.ResolvePublicKey(net, apiUrl, env.agentcred.github);
      && jwk.Some? && ImportPublicJwk(jwk.value).Success?
      && r == VerifyOffline(p, env, ImportPublicJwk(jwk.value).value, nowMs)
    // once a key resolves, the import error or verifyOffline's answer,
    // rejections included, is the result
    ensures var jwk := Identity.ResolvePublicKey(net, apiUrl, env.agentcred.github);
      jwk.Some? ==>
        r == match ImportPublicJwk(jwk.value)
             case Failure(e) => Rejected(e)
             case Success(k) => VerifyOffline(p, env, k, nowMs)
  {
    match Identity.ResolvePublicKey(net, apiUrl, env.agentcred.github)
    case None => Rejected(PublicKeyNotFound)
    case Some(jwk) =>
      match ImportPublicJwk(jwk)
      case Failure(e) => Rejected(e)
      case Success(key) => VerifyOffline(p, env, key, nowMs)
  }

  // ---------------------------------------------------------------------
  // Properties

  function SignedBy(p: Primitives, content: string, github: string, d: string,
                    options: SignOptions, signMs: int, nonce: string): Envelope
  {
    Sign(p, content, SignIdentity(Ed25519Private(d), github), options, signMs, nonce).value
  }

  /** Verifying what was signed, under the signer's key, succeeds exactly
      when the verifier's clock is within a day of the signing second; it
      reports the user, the resolved agent and the signing second. */
  lemma SignVerifyRoundTrip(p: Primitives, content: string, github: string, d: string,
                            options: SignOptions, signMs: int, nonce: string, nowMs: int)
    requires Sound(p)
    requires HasIsoTime(signMs / 1000)
    ensures VerifyOffline(p, SignedBy(p, content, github, d, options, signMs, nonce),
                          PublicKey(p.publicOf(d)), nowMs)
         == if InWindow(nowMs / 1000, signMs / 1000)
            then Verified(GithubInfo(github, 0, ""), options.agent.GetOr(DefaultAgent), signMs / 1000)
            else Rejected(OutsideWindow)
  {
    var agent := options.agent.GetOr(DefaultAgent);
    var c := MakeClaims(p, content, github, agent, options.contentType.GetOr(DefaultContentType), signMs, nonce);
    CompactRoundTrip(p, MakeHeader(github), c, d);
    ReplaceFirstOfPrefix(HashPrefix, p.sha256Hex(content));
  }

  /** Content changed after signing (to something with another digest) is
      reported as a hash mismatch, whatever the clock says. */
  lemma TamperedContent(p: Primitives, content: string, github: string, d: string,
                        options: SignOptions, signMs: int, nonce: string, nowMs: int, other: string)
    requires Sound(p)
    requires p.sha256Hex(other) != p.sha256Hex(content)
    ensures var env := SignedBy(p, content, github, d, options, signMs, nonce);
      VerifyOffline(p, env.(content := other), PublicKey(p.publicOf(d)), nowMs) == Rejected(HashMismatch)
  {
    var agent := options.agent.GetOr(DefaultAgent);
    var c := MakeClaims(p, content, github, agent, options.contentType.GetOr(DefaultContentType), signMs, nonce);
    CompactRoundTrip(p, MakeHeader(github), c, d);
    ReplaceFirstOfPrefix(HashPrefix, p.sha256Hex(content));
    DigestsCompare(p.sha256Hex(other), p.sha256Hex(content));
  }

  /** A changed `agentcred.github` is reported as an issuer mismatch: the
      hash check before it still passes. */
  lemma TamperedGithub(p: Primitives, content: string, github: string, d: string,
                       options: SignOptions, signMs: int, nonce: string, nowMs: int, other: string)
    requires Sound(p)
    requires other != github
    ensures var env := SignedBy(p, content, github, d, options, signMs, nonce);
      VerifyOffline(p, env.(agentcred := env.agentcred.(github := other)), PublicKey(p.publicOf(d)), nowMs)
      == Rejected(IssuerMismatch)
  {
    var agent := options.agent.GetOr(DefaultAgent);
    var c := MakeClaims(p, content, github, agent, options.contentType.GetOr(DefaultContentType), signMs, nonce);
    CompactRoundTrip(p, MakeHeader(github), c, d);
    ReplaceFirstOfPrefix(HashPrefix, p.sha256Hex(content));
    IssuerInjective(other, github);
  }

  /** The hash is checked before the issuer: with both content and user
      changed, the hash mismatch is what is reported. */
  lemma HashCheckedBeforeIssuer(p: Primitives, content: string, github: string, d: string,
                                options: SignOptions, signMs: int, nonce: string, nowMs: int,
                                otherContent: string, otherGithub: string)
    requires Sound(p)
    requires p.sha256Hex(otherContent) != p.sha256Hex(content)
    ensures var env := SignedBy(p, content, github, d, options, signMs, nonce);
      VerifyOffline(p, Envelope(env.agentcred.(github := otherGithub), otherContent),
                    PublicKey(p.publicOf(d)), nowMs) == Rejected(HashMismatch)
  {
    var agent := options.agent.GetOr(DefaultAgent);
    var c := MakeClaims(p, content, github, agent, options.contentType.GetOr(DefaultContentType), signMs, nonce);
    CompactRoundTrip(p, MakeHeader(github), c, d);
    ReplaceFirstOfPrefix(HashPrefix, p.sha256Hex(content));
    DigestsCompare(p.sha256Hex(otherContent), p.sha256Hex(content));
  }

  /** The envelope's `agent` member is not signed and not read: changing it
      changes nothing, and a verified result names the signed subject. */
  lemma AgentFieldIgnored(p: Primitives, env: Envelope, key: PublicKey, nowMs: int, agent: string)
    ensures VerifyOffline(p, env.(agentcred := env.agentcred.(agent := agent)), key, nowMs)
         == VerifyOffline(p, env, key, nowMs)
  {
  }

  /** A token verifies under no key but the signer's. */
  lemma WrongKeyRejected(p: Primitives, content: string, github: string, d: string,
                         options: SignOptions, signMs: int, nonce: string, nowMs: int, key: PublicKey)
    requires Sound(p)
    requires key.x != p.publicOf(d)
    ensures VerifyOffline(p, SignedBy(p, content, github, d, options, signMs, nonce), key, nowMs).Rejected?
  {
    var env := SignedBy(p, content, github, d, options, signMs, nonce);
    var agent := options.agent.GetOr(DefaultAgent);
    var c := MakeClaims(p, content, github, agent, options.contentType.GetOr(DefaultContentType), signMs, nonce);
    if CompactVerify(p, env.agentcred.jws, key).Success? {
      OnlySignerKeyVerifies(p, MakeHeader(github), c, d, key);
    }
  }

  /** The window is inclusive: exactly a day after signing is accepted, a
      second later is not. */
  lemma WindowBoundary(p: Primitives, content: string, github: string, d: string,
                       options: SignOptions, nonce: string)
    requires Sound(p)
    ensures var env := SignedBy(p, content, github, d, options, 1_700_000_000_000, nonce);
      var key := PublicKey(p.publicOf(d));
      && VerifyOffline(p, env, key, 1_700_000_000_000 + 86400 * 1000).Verified?
      && VerifyOffline(p, env, key, 1_700_000_000_000 - 86400 * 1000).Verified?
      && VerifyOffline(p, env, key, 1_700_000_000_000 + 86401 * 1000) == Rejected(OutsideWindow)
  {
    SignVerifyRoundTrip(p, content, github, d, options, 1_700_000_000_000, nonce, 1_700_000_000_000 + 86400 * 1000);
    SignVerifyRoundTrip(p, content, github, d, options, 1_700_000_000_000, nonce, 1_700_000_000_000 - 86400 * 1000);
    SignVerifyRoundTrip(p, content, github, d, options, 1_700_000_000_000, nonce, 1_700_000_000_000 + 86401 * 1000);
  }

  /** With the registry serving the signer's public JWK, `verify` agrees with
      `verifyOffline` under the signer's key. */
  lemma VerifyUsesRegistryKey(p: Primitives, net: Identity.Network, apiUrl: string, env: Envelope,
                              nowMs: int, d: string)
    requires Identity.ResolvePublicKey(net, apiUrl, env.agentcred.github) == Some(PublicJwk(p.publicOf(d)))
    ensures Verify(p, net, apiUrl, env, nowMs) == VerifyOffline(p, env, PublicKey(p.publicOf(d)), nowMs)
  {
  }
}
