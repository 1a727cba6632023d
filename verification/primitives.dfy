/** The foreign code the sources call into, as a record of functions:
    SHA-256 (`createHash`, `crypto.subtle.digest`), base64url and base64
    (`jose`, `Buffer`), `JSON.stringify`/`JSON.parse` of the protocol's
    records, Ed25519 (`jose` sign/verify) and the algorithm check `jose`
    performs for an Ed25519 key. Byte strings are modelled as `string`.

    Nothing is assumed about an arbitrary record; `Sound` collects the
    properties of the real libraries that the proofs rely on, and every lemma
    that needs them says so in its `requires`. Collision resistance is NOT
    among them (a 64-digit hex string cannot name every input); lemmas that
    need two hashes to differ take that as a hypothesis. */
module Primitives {
  import opened Wrappers
  import opened Types

  datatype Primitives = Primitives(
    sha256Hex: string -> string,
    base64Url: string -> string,
    base64UrlDecode: string -> Option<string>,
    base64: string -> string,
    base64Decode: string -> Option<string>,
    headerJson: Header -> string,
    parseHeader: string -> Option<Header>,
    claimsJson: Claims -> string,
    parseClaims: string -> Option<Claims>,
    credentialJson: Credential -> string,
    parseCredential: string -> Option<Credential>,
    envelopeJson: Envelope -> string,
    parseEnvelope: string -> Option<Envelope>,
    parseJson: string -> Option<Json>,
    jwkJson: Jwk -> string,
    jsonText: Json -> string,
    publicOf: string -> string,
    edSign: (string, string) -> string,
    edVerify: (string, string, string) -> bool,
    acceptsAlg: string -> bool)

  const HexDigits := "0123456789abcdef"

  /** A SHA-256 digest rendered by `digest('hex')`. */
  predicate IsLowerHex(h: string)
  {
    |h| == 64 && forall i :: 0 <= i < |h| ==> h[i] in HexDigits
  }

  /** A character of the standard base64 alphabet, or the padding '='. */
  predicate IsBase64Char(c: char)
  {
    'A' <= c <= 'Z' || 'a' <= c <= 'z' || '0' <= c <= '9' || c == '+' || c == '/' || c == '='
  }

  /** Text in the standard base64 alphabet with padding. */
  predicate IsBase64Text(t: string)
  {
    forall i :: 0 <= i < |t| ==> IsBase64Char(t[i])
  }

  /** What the proofs assume of the foreign libraries. */
  ghost predicate Sound(p: Primitives)
  {
    // SHA-256 as lowercase hex
    && (forall s :: IsLowerHex(p.sha256Hex(s)))
    // base64url (section 5 of RFC 4648) never emits '.', and decodes back
    && (forall m :: '.' !in p.base64Url(m))
    && (forall m :: p.base64UrlDecode(p.base64Url(m)) == Some(m))
    // base64 (section 4 of RFC 4648) stays in its alphabet, and decodes back
    && (forall m :: IsBase64Text(p.base64(m)))
    && (forall m :: p.base64Decode(p.base64(m)) == Some(m))
    // JSON.parse(JSON.stringify(x)) gives x back
    && (forall h :: p.parseHeader(p.headerJson(h)) == Some(h))
    && (forall c :: p.parseClaims(p.claimsJson(c)) == Some(c))
    && (forall c :: p.parseCredential(p.credentialJson(c)) == Some(c))
    && (forall e :: p.parseEnvelope(p.envelopeJson(e)) == Some(e))
    // Ed25519: a signature verifies under the signer's public key, and under
    // no other public key
    && (forall d, m :: p.edVerify(p.publicOf(d), m, p.edSign(d, m)))
    && (forall d, m, x :: p.edVerify(x, m, p.edSign(d, m)) ==> x == p.publicOf(d))
    // jose accepts the EdDSA algorithm identifier for an Ed25519 key
    && p.acceptsAlg("EdDSA")
  }
}
