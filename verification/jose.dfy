/** The part of the `jose` library the protocol uses: compact JWS signing and
    verification (section 7.1 of RFC 7515, EdDSA per section 3.1 of RFC 8037)
    and JWK import, expressed over the primitives record. Error messages of
    the library are placeholders. */
module Jose {
  import opened Wrappers
  import opened Types
  import opened Strings
  import opened Primitives

  const MalformedJws := "Invalid Compact JWS"
  const AlgorithmNotAccepted := "JWS algorithm not accepted for this key"
  const SignatureFailed := "signature verification failed"
  const UnsupportedKey := "Unsupported JWK"

  /** The outcome of `compactVerify`: the protected header and the payload
      bytes. */
  datatype Decoded = Decoded(header: Header, payload: string)

  /** `BASE64URL(header) || '.' || BASE64URL(payload)`. */
  function SigningInput(p: Primitives, h: Header, c: Claims): string
  {
    p.base64Url(p.headerJson(h)) + "." + p.base64Url(p.claimsJson(c))
  }

  /** `new CompactSign(payload).setProtectedHeader(h).sign(key)` for an
      Ed25519 private scalar `d`. */
  function CompactSign(p: Primitives, h: Header, c: Claims, d: string): string
  {
    var input := SigningInput(p, h, c);
    input + "." + p.base64Url(p.edSign(d, input))
  }

  /** `compactVerify(jws, key)`: three dot-separated segments, a decodable
      protected header whose algorithm the key accepts, a signature that
      verifies over the first two segments, and a decodable payload. */
  function CompactVerify(p: Primitives, jws: string, key: PublicKey): (r: Result<Decoded>)
    ensures r.Success? ==> |Split(jws, '.')| == 3
    ensures r.Success? ==>
      var segs := Split(jws, '.');
      && p.acceptsAlg(r.value.header.alg)
      && p.base64UrlDecode(segs[2]).Some?
      && p.edVerify(key.x, segs[0] + "." + segs[1], p.base64UrlDecode(segs[2]).value)
      && p.base64UrlDecode(segs[1]) == Some(r.value.payload)
  {
    var segs := Split(jws, '.');
    if |segs| != 3 then Failure(MalformedJws)
    else
      match p.base64UrlDecode(segs[0])
      case None => Failure(MalformedJws)
      case Some(headerBytes) =>
        match p.parseHeader(headerBytes)
        case None => Failure(MalformedJws)
        case Some(h) =>
          if !p.acceptsAlg(h.alg) then Failure(AlgorithmNotAccepted)
          else
            match p.base64UrlDecode(segs[2])
            case None => Failure(MalformedJws)
            case Some(sig) =>
              if !p.edVerify(key.x, segs[0] + "." + segs[1], sig) then Failure(SignatureFailed)
              else
                match p.base64UrlDecode(segs[1])
                case None => Failure(MalformedJws)
                case Some(payload) => Success(Decoded(h, payload))
  }

  /** `importJWK(jwk, 'EdDSA')` for a public key. */
  function ImportPublicJwk(jwk: Jwk): (r: Result<PublicKey>)
    ensures r.Success? <==> jwk.kty == KeyTypeOkp && jwk.crv == CurveEd25519
    ensures r.Success? ==> r.value.x == jwk.x
  {
    if jwk.kty == KeyTypeOkp && jwk.crv == CurveEd25519 then Success(PublicKey(jwk.x))
    else Failure(UnsupportedKey)
  }

  /** `importJWK(jwk, 'EdDSA')` for a stored private key: with `d` it yields
      a private key object, without `d` a public one. */
  function ImportPrivateJwk(jwk: Jwk): (r: Result<SigningKey>)
    ensures r.Success? <==> jwk.kty == KeyTypeOkp && jwk.crv == CurveEd25519
    ensures r.Success? ==> (r.value.Ed25519Private? <==> jwk.d.Some?)
    ensures r.Success? && jwk.d.Some? ==> r.value.d == jwk.d.value
  {
    if jwk.kty != KeyTypeOkp || jwk.crv != CurveEd25519 then Failure(UnsupportedKey)
    else
      match jwk.d
      case Some(d) => Success(Ed25519Private(d))
      case None => Success(Ed25519Public(jwk.x))
  }

  // ---------------------------------------------------------------------
  // Properties of the compact serialisation

  /** The three segments of a signed token, in order. */
  lemma Segments(p: Primitives, h: Header, c: Claims, d: string)
    requires Sound(p)
    ensures Split(CompactSign(p, h, c, d), '.')
         == [p.base64Url(p.headerJson(h)), p.base64Url(p.claimsJson(c)),
             p.base64Url(p.edSign(d, SigningInput(p, h, c)))]
  {
    var parts := [p.base64Url(p.headerJson(h)), p.base64Url(p.claimsJson(c)),
                  p.base64Url(p.edSign(d, SigningInput(p, h, c)))];
    assert Join(parts[2..], '.') == parts[2];
    assert Join(parts[1..], '.') == parts[1] + "." + parts[2];
    assert Join(parts, '.') == CompactSign(p, h, c, d);
    SplitJoin(parts, '.');
  }

  /** A signed token has exactly three dot-separated segments, none of them
      containing a dot. */
  lemma ThreeSegments(p: Primitives, h: Header, c: Claims, d: string)
    requires Sound(p)
    ensures |Split(CompactSign(p, h, c, d), '.')| == 3
    ensures Join(Split(CompactSign(p, h, c, d), '.'), '.') == CompactSign(p, h, c, d)
  {
    Segments(p, h, c, d);
    JoinSplit(CompactSign(p, h, c, d), '.');
  }

  /** Verifying a token under the signer's public key gives back the header
      and the serialised claims. */
  lemma CompactRoundTrip(p: Primitives, h: Header, c: Claims, d: string)
    requires Sound(p)
    requires p.acceptsAlg(h.alg)
    ensures CompactVerify(p, CompactSign(p, h, c, d), PublicKey(p.publicOf(d)))
         == Success(Decoded(h, p.claimsJson(c)))
  {
    Segments(p, h, c, d);
    assert SigningInput(p, h, c)
        == p.base64Url(p.headerJson(h)) + "." + p.base64Url(p.claimsJson(c));
  }

  /** A token verifies under no public key but the signer's. */
  lemma OnlySignerKeyVerifies(p: Primitives, h: Header, c: Claims, d: string, key: PublicKey)
    requires Sound(p)
    requires CompactVerify(p, CompactSign(p, h, c, d), key).Success?
    ensures key.x == p.publicOf(d)
  {
    Segments(p, h, c, d);
    var input := SigningInput(p, h, c);
    assert p.base64UrlDecode(p.base64Url(p.edSign(d, input))) == Some(p.edSign(d, input));
    assert p.edVerify(key.x, input, p.edSign(d, input));
  }

  /** A token determines the claim set it was signed over, so tokens over
      different claim sets differ. */
  lemma TokenDeterminesClaims(p: Primitives, h1: Header, c1: Claims, d1: string,
                              h2: Header, c2: Claims, d2: string)
    requires Sound(p)
    ensures CompactSign(p, h1, c1, d1) == CompactSign(p, h2, c2, d2) ==> c1 == c2
  {
    Segments(p, h1, c1, d1);
    Segments(p, h2, c2, d2);
    if CompactSign(p, h1, c1, d1) == CompactSign(p, h2, c2, d2) {
      assert p.base64Url(p.claimsJson(c1)) == p.base64Url(p.claimsJson(c2));
      assert p.base64UrlDecode(p.base64Url(p.claimsJson(c1))) == Some(p.claimsJson(c1));
      assert p.base64UrlDecode(p.base64Url(p.claimsJson(c2))) == Some(p.claimsJson(c2));
      assert p.parseClaims(p.claimsJson(c1)) == Some(c1);
      assert p.parseClaims(p.claimsJson(c2)) == Some(c2);
    }
  }
}
