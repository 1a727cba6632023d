/** The records exchanged by the SDK, the registry service and the adapters
    (packages/sdk/src/types.ts and the registry's `StoredKey`). */
module Types {
  import opened Wrappers

  /** A JSON value as produced by `JSON.parse` (numbers restricted to
      integers, which is all the protocol carries). */
  datatype Json =
    | JNull
    | JBool(b: bool)
    | JNumber(n: int)
    | JString(s: string)
    | JArray(items: seq<Json>)
    | JObject(fields: map<string, Json>)

  /** A JSON Web Key as the protocol uses it: an OKP key with its public
      coordinate `x`, the private scalar `d` when present, and the optional
      `use`/`alg` members the registry schema admits. */
  datatype Jwk = Jwk(kty: string, crv: string, x: string, d: Option<string>,
                     use: Option<string>, alg: Option<string>)

  const KeyTypeOkp := "OKP"
  const CurveEd25519 := "Ed25519"

  /** The public JWK `exportJWK` gives for an Ed25519 public key. */
  function PublicJwk(x: string): Jwk
  {
    Jwk(KeyTypeOkp, CurveEd25519, x, None, None, None)
  }

  /** The private JWK `exportJWK` gives for an Ed25519 private key. */
  function PrivateJwk(x: string, d: string): Jwk
  {
    Jwk(KeyTypeOkp, CurveEd25519, x, Some(d), None, None)
  }

  /** The key a signer holds (`CryptoKey | Uint8Array`): an Ed25519 private
      key object, an Ed25519 public key object (what importing a JWK without
      `d` yields), or raw bytes. Only the first can sign. */
  datatype SigningKey =
    | Ed25519Private(d: string)
    | Ed25519Public(x: string)
    | RawBytes(length: nat)

  /** An imported Ed25519 public key, identified by its coordinate. */
  datatype PublicKey = PublicKey(x: string)

  datatype SignIdentity = SignIdentity(privateKey: SigningKey, github: string)

  datatype SignOptions = SignOptions(agent: Option<string>, contentType: Option<string>)

  const NoOptions := SignOptions(None, None)

  /** The protected header of the compact JWS. */
  datatype Header = Header(alg: string, typ: string, kid: string)

  /** The signed claim set. `iat` is in seconds; `contentHash` is
      "sha256:" followed by lowercase hex when produced by the signer. */
  datatype Claims = Claims(iss: string, sub: string, iat: int, contentHash: string,
                           contentType: string, nonce: string)

  /** The `agentcred` member of an envelope. */
  datatype Credential = Credential(v: string, jws: string, github: string, agent: string)

  /** A signed envelope: the credential plus the content, carried verbatim. */
  datatype Envelope = Envelope(agentcred: Credential, content: string)

  datatype GithubInfo = GithubInfo(username: string, id: int, avatarUrl: string)

  datatype Identity = Identity(github: GithubInfo, publicKey: Jwk, fingerprint: string,
                               registeredAt: string)

  /** `VerifyResult`: `verified: true` with the signer's details, or
      `verified: false` with an error message. `signedAt` is the signed `iat`
      in seconds (its ISO rendering is not modelled). */
  datatype VerifyResult =
    | Verified(github: GithubInfo, agent: string, signedAt: int)
    | Rejected(error: string)

  /** The outcome of a `fetch`: a rejected promise carrying a message, or a
      response with its `ok` flag and its JSON body (`None` when `json()`
      throws). */
  datatype Reply<T> = NetworkError(message: string) | Reply(ok: bool, body: Option<T>)

  /** The body of `GET /v1/keys/:username` as the SDK reads it. */
  datatype KeyRecord = KeyRecord(github: string, publicKey: Option<Jwk>, registeredAt: string)

  /** Placeholder message of a `SyntaxError` thrown by `response.json()` or
      `JSON.parse` (the exact text belongs to the JavaScript engine). */
  const JsonParseError := "Unexpected token in JSON"
}
