/** The registry service (packages/api/src/index.ts): a key-value store of
    registered public keys and rate-limit counters, and the sequential
    decision logic of its three endpoints `POST /v1/keys`,
    `GET /v1/keys/:username` and `POST /v1/verify`.

    The KV namespace is a map from key text to an entry; the clock is an
    explicit reading in milliseconds (with its ISO rendering a separate
    string); the GitHub token check is a function from token to user; a
    request is its relevant headers and its parsed JSON body. */
module Registry {
  import opened Wrappers
  import opened Types
  import opened Strings
  import opened Primitives
  import opened Jose
  import Storage
  import Signer
  import Verifier

  const RateLimitExceeded := "Rate limit exceeded"
  const MissingAuthorization := "Missing or invalid Authorization header"
  const InvalidGithubToken := "Invalid GitHub token"
  const InvalidJsonBody := "Invalid JSON body"
  const InvalidRequestBody := "Invalid request body"
  const KeyNotFound := "Key not found"
  const InvalidEnvelopeFormat := "Invalid envelope format"
  const NoRegisteredKey := "No registered key for user: "
  const InvalidAlgorithm := "Invalid algorithm"
  const IssuerMismatch := "Issuer mismatch"
  const ContentTampered := "Content hash mismatch - content was tampered"
  const TimestampOutOfRange := "Signature expired or timestamp out of range"
  const VerificationFailed := "Verification failed"

  const BearerPrefix := "Bearer "
  const UnknownIp := "unknown"

  /** Rate-limit buckets and their per-minute limits. */
  const RegisterEndpoint := "POST:/v1/keys"
  const LookupEndpoint := "GET:/v1/keys"
  const VerifyEndpoint := "POST:/v1/verify"
  const RegisterLimit := 10
  const LookupLimit := 120
  const VerifyLimit := 60

  // ---------------------------------------------------------------------
  // Constant-time comparison

  /** JavaScript's `^` on non-negative operands, bit by bit. The operands
      here are UTF-16 code units, below 2^16, where the 32-bit operator
      agrees with this one. */
  function Xor(a: nat, b: nat): nat
    decreases a + b
  {
    if a == 0 && b == 0 then 0 else (a % 2 + b % 2) % 2 + 2 * Xor(a / 2, b / 2)
  }

  /** JavaScript's `|` on non-negative operands, bit by bit. */
  function Or(a: nat, b: nat): nat
    decreases a + b
  {
    if a == 0 && b == 0 then 0 else (if a % 2 == 1 || b % 2 == 1 then 1 else 0) + 2 * Or(a / 2, b / 2)
  }

  /** The XOR of two numbers is zero exactly when they are equal. */
  lemma {:induction false} XorZero(a: nat, b: nat)
    ensures Xor(a, b) == 0 <==> a == b
    decreases a + b
  {
    if a != 0 || b != 0 {
      XorZero(a / 2, b / 2);
    }
  }

  /** The OR of two numbers is zero exactly when both are. */
  lemma {:induction false} OrZero(a: nat, b: nat)
    ensures Or(a, b) == 0 <==> a == 0 && b == 0
    decreases a + b
  {
    if a != 0 || b != 0 {
      OrZero(a / 2, b / 2);
    }
  }

  /** One round of the comparison loop: the accumulator stays zero exactly
      while the compared prefixes agree. */
  lemma AccumulateStep(acc: nat, ua: seq<int>, ub: seq<int>, i: nat)
    requires i < |ua| == |ub|
    requires 0 <= ua[i] && 0 <= ub[i]
    requires acc == 0 <==> ua[..i] == ub[..i]
    ensures Or(acc, Xor(ua[i], ub[i])) == 0 <==> ua[..i + 1] == ub[..i + 1]
  {
    XorZero(ua[i], ub[i]);
    OrZero(acc, Xor(ua[i], ub[i]));
    assert ua[..i + 1] == ua[..i] + [ua[i]] && ub[..i + 1] == ub[..i] + [ub[i]];
    if ua[..i + 1] == ub[..i + 1] {
      assert ua[..i] == ua[..i + 1][..i] && ub[..i] == ub[..i + 1][..i];
    }
  }

  /** `constantTimeEqual(a, b)`: unequal `.length` (UTF-16 units) answers
      false at once; otherwise the XOR of every pair of code units is ORed
      into an accumulator, and the strings are equal iff it stays 0. */
  method ConstantTimeEqual(a: string, b: string) returns (equal: bool)
    ensures equal <==> a == b
  {
    var ua, ub := Utf16(a), Utf16(b);
    if |ua| != |ub| {
      return false;
    }
    var acc: nat := 0;
    for i := 0 to |ua|
      invariant acc == 0 <==> ua[..i] == ub[..i]
    {
      AccumulateStep(acc, ua, ub, i);
      acc := Or(acc, Xor(ua[i], ub[i]));
    }
    equal := acc == 0;
    assert ua[..|ua|] == ua && ub[..|ub|] == ub;
    if equal {
      Utf16Injective(a, b);
    }
  }

  // ---------------------------------------------------------------------
  // The KV namespace

  /** `StoredKey`: what a registration stores, as JSON, under `key:<login>`. */
  datatype StoredKey = StoredKey(github: string, githubId: int, publicKey: Jwk, registeredAt: string)

  /** A KV value: a rate-limit counter (stored as its decimal text) or a
      registration record. */
  datatype Entry = Counter(count: nat) | Record(stored: StoredKey)

  type Kv = map<string, Entry>

  function RecordKey(username: string): string
  {
    "key:" + username
  }

  /** The registration record stored for a user, if any. */
  function Lookup(kv: Kv, username: string): Option<StoredKey>
  {
    var k := RecordKey(username);
    if k in kv && kv[k].Record? then Some(kv[k].stored) else None
  }

  // ---------------------------------------------------------------------
  // Rate limiting

  /** The decimal digits of a natural number, as `String(n)` writes them. */
  function Digits(n: nat): (r: string)
    ensures |r| >= 1 && (n < 10 <==> |r| == 1)
    ensures forall k :: 0 <= k < |r| ==> '0' <= r[k] <= '9'
    decreases n
  {
    var last := ['0' + (n % 10) as char];
    if n < 10 then last else Digits(n / 10) + last
  }

  /** `String(m)` of an integer. */
  function Decimal(m: int): string
  {
    if m < 0 then "-" + Digits(-m) else Digits(m)
  }

  lemma {:induction false} DigitsInjective(a: nat, b: nat)
    requires Digits(a) == Digits(b)
    ensures a == b
    decreases a
  {
    var da, db := Digits(a), Digits(b);
    assert da[|da| - 1] == '0' + (a % 10) as char;
    assert db[|db| - 1] == '0' + (b % 10) as char;
    if a >= 10 && b >= 10 {
      assert Digits(a / 10) == da[..|da| - 1] == db[..|db| - 1] == Digits(b / 10);
      DigitsInjective(a / 10, b / 10);
    }
  }

  /** `String(m)` starts with '-' exactly for a negative number. */
  lemma DecimalSign(m: int)
    ensures |Decimal(m)| >= 1 && (Decimal(m)[0] == '-' <==> m < 0)
    ensures forall k :: 0 <= k < |Decimal(m)| ==> Decimal(m)[k] != ':'
  {
    var ds := if m < 0 then Digits(-m) else Digits(m);
    assert forall k :: 0 <= k < |ds| ==> '0' <= ds[k] <= '9';
    assert m < 0 ==> forall k :: 1 <= k < |Decimal(m)| ==> Decimal(m)[k] == ds[k - 1];
  }

  /** Different integers are written differently. */
  lemma DecimalInjective(a: int, b: int)
    requires Decimal(a) == Decimal(b)
    ensures a == b
  {
    DecimalSign(a);
    DecimalSign(b);
    if a < 0 && b < 0 {
      assert Digits(-a) == Decimal(a)[1..] == Decimal(b)[1..] == Digits(-b);
      DigitsInjective(-a, -b);
    } else if a >= 0 && b >= 0 {
      DigitsInjective(a, b);
    }
  }

  /** `Math.floor(Date.now() / 60000)`. */
  function Minute(nowMs: int): (m: int)
    ensures m * 60000 <= nowMs < m * 60000 + 60000
  {
    nowMs / 60000
  }

  /** `ratelimit:${ip}:${endpoint}:${minute}`. */
  function RateKey(ip: string, endpoint: string, minute: int): string
  {
    "ratelimit:" + ip + ":" + endpoint + ":" + Decimal(minute)
  }

  /** The counter under a key: `current ? parseInt(current, 10) : 0`. */
  function Count(kv: Kv, key: string): nat
  {
    if key in kv && kv[key].Counter? then kv[key].count else 0
  }

  /** `checkRateLimit(kv, ip, endpoint, limit)` at `nowMs`: whether the
      request is allowed, and the store after it. */
  function CheckRateLimit(kv: Kv, ip: string, endpoint: string, limit: nat, nowMs: int): (r: (bool, Kv))
    ensures var key := RateKey(ip, endpoint, Minute(nowMs));
      && (r.0 <==> Count(kv, key) < limit)
      && (r.0 ==> Count(r.1, key) == Count(kv, key) + 1)
      && (forall k :: k != key ==> (k in r.1 <==> k in kv) && (k in kv ==> r.1[k] == kv[k]))
    ensures !r.0 ==> r.1 == kv
    // a counter never overwrites a registration
    ensures forall u :: Lookup(r.1, u) == Lookup(kv, u)
  {
    var key := RateKey(ip, endpoint, Minute(nowMs));
    var count := Count(kv, key);
    if count >= limit then (false, kv)
    else
      assert forall u :: RecordKey(u)[0] == 'k' != key[0];
      (true, kv[key := Counter(count + 1)])
  }

  /** `n` requests in a row, in one minute, from one client to one endpoint:
      how many were allowed, and the store after them. */
  function Burst(kv: Kv, ip: string, endpoint: string, limit: nat, nowMs: int, n: nat): (nat, Kv)
    decreases n
  {
    if n == 0 then (0, kv)
    else
      var (ok, kv1) := CheckRateLimit(kv, ip, endpoint, limit, nowMs);
      var (rest, kv2) := Burst(kv1, ip, endpoint, limit, nowMs, n - 1);
      (rest + (if ok then 1 else 0), kv2)
  }

  /** Within one minute a client gets at most `limit` requests through to
      an endpoint: exactly as many as the counter has room for. */
  lemma {:induction false} BurstAllowsUpToLimit(kv: Kv, ip: string, endpoint: string, limit: nat,
                                                nowMs: int, n: nat)
    ensures var room := if Count(kv, RateKey(ip, endpoint, Minute(nowMs))) >= limit then 0
                        else limit - Count(kv, RateKey(ip, endpoint, Minute(nowMs)));
      Burst(kv, ip, endpoint, limit, nowMs, n).0 == if n < room then n else room
    decreases n
  {
    if n > 0 {
      var (ok, kv1) := CheckRateLimit(kv, ip, endpoint, limit, nowMs);
      BurstAllowsUpToLimit(kv1, ip, endpoint, limit, nowMs, n - 1);
    }
  }

  /** The endpoints' bucket names. */
  predicate IsEndpoint(e: string)
  {
    e == RegisterEndpoint || e == LookupEndpoint || e == VerifyEndpoint
  }

  /** Two equal strings that end in `:` + a number agree on the number and
      on everything before it. */
  lemma SplitOffMinute(x1: string, m1: int, x2: string, m2: int)
    requires x1 + ":" + Decimal(m1) == x2 + ":" + Decimal(m2)
    ensures x1 == x2 && m1 == m2
  {
    var s := x1 + ":" + Decimal(m1);
    var d1, d2 := Decimal(m1), Decimal(m2);
    DecimalSign(m1);
    DecimalSign(m2);
    assert s[|x1|] == ':';
    assert (x2 + ":" + d2)[|x2|] == ':';
    assert |x1| == |x2|;
    assert x1 == s[..|x1|] == x2;
    assert d1 == s[|x1| + 1..] == d2;
    DecimalInjective(m1, m2);
  }

  /** Likewise for a string that ends in `:` + an endpoint name. */
  lemma SplitOffEndpoint(x1: string, e1: string, x2: string, e2: string)
    requires IsEndpoint(e1) && IsEndpoint(e2)
    requires x1 + ":" + e1 == x2 + ":" + e2
    ensures x1 == x2 && e1 == e2
  {
    var s := x1 + ":" + e1;
    var t1, t2 := ":" + e1, ":" + e2;
    assert s == x1 + t1 == x2 + t2;
    // The last character is 's' for the two keys endpoints and 'y' for
    // verify, which tells verify apart.
    assert t1[|t1| - 1] == s[|s| - 1] == t2[|t2| - 1];
    // Thirteen characters from the end, ":" + "GET:/v1/keys" has its ':'
    // and ":" + "POST:/v1/keys" its 'P', which tells those two apart.
    assert t1[|t1| - 13] == s[|s| - 13] == t2[|t2| - 13];
    assert e1 == e2;
    assert x1 == s[..|x1|] == x2;
  }

  /** Distinct (client, endpoint, minute) buckets have distinct keys, even
      though a client address may itself contain ':'. */
  lemma RateKeyInjective(ip1: string, e1: string, m1: int, ip2: string, e2: string, m2: int)
    requires IsEndpoint(e1) && IsEndpoint(e2)
    requires RateKey(ip1, e1, m1) == RateKey(ip2, e2, m2)
    ensures ip1 == ip2 && e1 == e2 && m1 == m2
  {
    assert ("ratelimit:" + ip1 + ":" + e1) + ":" + Decimal(m1) == ("ratelimit:" + ip2 + ":" + e2) + ":" + Decimal(m2);
    SplitOffMinute("ratelimit:" + ip1 + ":" + e1, m1, "ratelimit:" + ip2 + ":" + e2, m2);
    assert ("ratelimit:" + ip1) + ":" + e1 == ("ratelimit:" + ip2) + ":" + e2;
    SplitOffEndpoint("ratelimit:" + ip1, e1, "ratelimit:" + ip2, e2);
    assert ip1 == ("ratelimit:" + ip1)[10..] == ("ratelimit:" + ip2)[10..] == ip2;
  }

  /** A request counts only against its own bucket: every other client,
      endpoint and minute keeps its counter. */
  lemma BucketsIndependent(kv: Kv, ip: string, endpoint: string, limit: nat, nowMs: int,
                           ip2: string, endpoint2: string, minute2: int)
    requires IsEndpoint(endpoint) && IsEndpoint(endpoint2)
    requires (ip2, endpoint2, minute2) != (ip, endpoint, Minute(nowMs))
    ensures Count(CheckRateLimit(kv, ip, endpoint, limit, nowMs).1, RateKey(ip2, endpoint2, minute2))
         == Count(kv, RateKey(ip2, endpoint2, minute2))
  {
    if RateKey(ip2, endpoint2, minute2) == RateKey(ip, endpoint, Minute(nowMs)) {
      RateKeyInjective(ip2, endpoint2, minute2, ip, endpoint, Minute(nowMs));
    }
  }

  // ---------------------------------------------------------------------
  // Requests and responses

  /** The parts of a request the handlers read: the two client-address
      headers, the Authorization header, and the body (`None` when
      `c.req.json()` throws). */
  datatype HttpRequest = HttpRequest(cfConnectingIp: Option<string>, forwardedFor: Option<string>,
                                     authorization: Option<string>, body: Option<Json>)

  /** The JSON bodies the handlers answer with. */
  datatype Body =
    | ErrorBody(error: string)
    | Refusal(error: string)
    | KeyBody(github: string, publicKey: Jwk, registeredAt: string)
    | VerifiedBody(username: string, id: int, agent: string, signedAt: int)

  datatype Response = Response(status: int, body: Body)

  /** The user a GitHub token belongs to. */
  datatype GithubUser = GithubUser(login: string, id: int)

  /** `cf-connecting-ip || x-forwarded-for || 'unknown'`: an empty header
      counts as missing. */
  function ClientIp(req: HttpRequest): (ip: string)
    ensures Truthy(req.cfConnectingIp) ==> ip == req.cfConnectingIp.value
    ensures !Truthy(req.cfConnectingIp) && Truthy(req.forwardedFor) ==> ip == req.forwardedFor.value
    ensures !Truthy(req.cfConnectingIp) && !Truthy(req.forwardedFor) ==> ip == UnknownIp
    ensures ip != ""
  {
    if Truthy(req.cfConnectingIp) then req.cfConnectingIp.value
    else if Truthy(req.forwardedFor) then req.forwardedFor.value
    else UnknownIp
  }

  // ---------------------------------------------------------------------
  // Schemas

  /** An optional literal member: absent is fine, present must be the
      literal; `None` means the schema rejects. */
  function OptionalLiteral(fields: map<string, Json>, name: string, literal: string): (r: Option<Option<string>>)
    ensures r == Some(None) <==> name !in fields
    ensures r == Some(Some(literal)) <==> name in fields && fields[name] == JString(literal)
    ensures r.Some? && r.value.Some? ==> r.value.value == literal
  {
    if name !in fields then Some(None)
    else if fields[name] == JString(literal) then Some(Some(literal))
    else None
  }

  /** `JwkSchema.safeParse`: kty 'OKP', crv 'Ed25519', a string x, optional
      use 'sig' and alg 'EdDSA'; every other member is dropped. */
  function ParseJwk(j: Json): (r: Option<Jwk>)
    ensures r.Some? ==>
      && r.value.kty == KeyTypeOkp && r.value.crv == CurveEd25519
      && r.value.d.None?
      && (r.value.use.Some? ==> r.value.use.value == "sig")
      && (r.value.alg.Some? ==> r.value.alg.value == Signer.Algorithm)
  {
    match j
    case JObject(f) =>
      if "kty" in f && f["kty"] == JString(KeyTypeOkp) && "crv" in f && f["crv"] == JString(CurveEd25519)
         && "x" in f && f["x"].JString?
      then
        match (OptionalLiteral(f, "use", "sig"), OptionalLiteral(f, "alg", Signer.Algorithm))
        case (Some(use), Some(alg)) => Some(Jwk(KeyTypeOkp, CurveEd25519, f["x"].s, None, use, alg))
        case _ => None
      else None
    case _ => None
  }

  /** `RegisterKeySchema.safeParse`: an object whose `public_key` passes
      the JWK schema. */
  function ParseRegisterBody(j: Json): Option<Jwk>
  {
    if j.JObject? && "public_key" in j.fields then ParseJwk(j.fields["public_key"]) else None
  }

  /** A JWK as `JSON.stringify` writes it (absent members omitted). */
  function JwkToJson(k: Jwk): Json
  {
    var base := map["kty" := JString(k.kty), "crv" := JString(k.crv), "x" := JString(k.x)];
    var withD := if k.d.Some? then base["d" := JString(k.d.value)] else base;
    var withUse := if k.use.Some? then withD["use" := JString(k.use.value)] else withD;
    JObject(if k.alg.Some? then withUse["alg" := JString(k.alg.value)] else withUse)
  }

  /** A JWK the schema admits: an Ed25519 key whose optional members hold
      their literals. */
  predicate SchemaShaped(k: Jwk)
  {
    && k.kty == KeyTypeOkp && k.crv == CurveEd25519
    && (k.use.Some? ==> k.use.value == "sig")
    && (k.alg.Some? ==> k.alg.value == Signer.Algorithm)
  }

  /** The schema accepts the JSON of a schema-shaped key and gives it back
      with the private scalar, if any, stripped. */
  lemma JwkSchemaRoundTrip(k: Jwk)
    requires SchemaShaped(k)
    ensures ParseJwk(JwkToJson(k)) == Some(k.(d := None))
  {
    var f := JwkToJson(k).fields;
    assert "kty" in f && f["kty"] == JString(k.kty);
    assert "crv" in f && f["crv"] == JString(k.crv);
    assert "x" in f && f["x"] == JString(k.x);
    assert "use" in f <==> k.use.Some?;
    assert k.use.Some? ==> f["use"] == JString(k.use.value);
    assert "alg" in f <==> k.alg.Some?;
    assert k.alg.Some? ==> f["alg"] == JString(k.alg.value);
  }

  /** What the schema accepts is schema-shaped, and accepting it again
      changes nothing. */
  lemma JwkSchemaIdempotent(j: Json)
    requires ParseJwk(j).Some?
    ensures SchemaShaped(ParseJwk(j).value)
    ensures ParseJwk(JwkToJson(ParseJwk(j).value)) == ParseJwk(j)
  {
    JwkSchemaRoundTrip(ParseJwk(j).value);
  }

  /** The registration body the SDK sends, `{ public_key }`. */
  function RegisterBody(k: Jwk): Json
  {
    JObject(map["public_key" := JwkToJson(k)])
  }

  /** The SDK's registration of an exported public key passes the schema
      unchanged. */
  lemma SdkRegistrationAccepted(x: string)
    ensures ParseRegisterBody(RegisterBody(PublicJwk(x))) == Some(PublicJwk(x))
  {
    JwkSchemaRoundTrip(PublicJwk(x));
  }

  /** `EnvelopeSchema.safeParse`: `agentcred` with string v, jws, github and
      agent, and a string content. */
  function ParseEnvelopeJson(j: Json): (r: Option<Envelope>)
    ensures r.Some? ==> j.JObject? && "agentcred" in j.fields && "content" in j.fields
                        && j.fields["content"] == JString(r.value.content)
  {
    if j.JObject? && "agentcred" in j.fields && "content" in j.fields && j.fields["content"].JString?
       && j.fields["agentcred"].JObject?
    then
      var a := j.fields["agentcred"].fields;
      if "v" in a && a["v"].JString? && "jws" in a && a["jws"].JString?
         && "github" in a && a["github"].JString? && "agent" in a && a["agent"].JString?
      then Some(Envelope(Credential(a["v"].s, a["jws"].s, a["github"].s, a["agent"].s), j.fields["content"].s))
      else None
    else None
  }

  /** An envelope as `JSON.stringify` writes it. */
  function EnvelopeToJson(e: Envelope): Json
  {
    var a := e.agentcred;
    JObject(map[
      "agentcred" := JObject(map["v" := JString(a.v), "jws" := JString(a.jws),
                                 "github" := JString(a.github), "agent" := JString(a.agent)]),
      "content" := JString(e.content)])
  }

  /** The body itself, or its `envelope` member when it is an object with
      one. */
  function EnvelopeData(body: Json): Json
  {
    if body.JObject? && "envelope" in body.fields then body.fields["envelope"] else body
  }

  /** Both accepted body shapes carry the envelope through the schema: the
      bare envelope and `{ envelope }`. */
  lemma EnvelopeBodiesAccepted(e: Envelope)
    ensures ParseEnvelopeJson(EnvelopeData(EnvelopeToJson(e))) == Some(e)
    ensures ParseEnvelopeJson(EnvelopeData(JObject(map["envelope" := EnvelopeToJson(e)]))) == Some(e)
  {
    assert "envelope" !in EnvelopeToJson(e).fields;
  }

  // ---------------------------------------------------------------------
  // POST /v1/keys

  /** `authHeader?.startsWith('Bearer ')`. */
  predicate HasBearer(req: HttpRequest)
  {
    req.authorization.Some? && IsPrefix(BearerPrefix, req.authorization.value)
  }

  /** Every record sits under its own login and holds no private scalar. */
  ghost predicate RegistryValid(kv: Kv)
  {
    forall u :: Lookup(kv, u).Some? ==> Lookup(kv, u).value.github == u && Lookup(kv, u).value.publicKey.d.None?
  }

  /** `POST /v1/keys` with the GitHub token check `githubUser`, at `nowMs`
      (rendered as `nowIso`). The checks run in order: rate limit, bearer
      header, token, JSON, schema. */
  function PostKeys(kv: Kv, req: HttpRequest, githubUser: string -> Option<GithubUser>,
                    nowMs: int, nowIso: string): (r: (Response, Kv))
    ensures var (allowed, kv1) := CheckRateLimit(kv, ClientIp(req), RegisterEndpoint, RegisterLimit, nowMs);
      && (!allowed ==> r == (Response(429, ErrorBody(RateLimitExceeded)), kv))
      && (allowed && !HasBearer(req) ==> r == (Response(401, ErrorBody(MissingAuthorization)), kv1))
      && (allowed && HasBearer(req) && githubUser(req.authorization.value[7..]).None? ==>
            r == (Response(401, ErrorBody(InvalidGithubToken)), kv1))
      && (allowed && HasBearer(req) && githubUser(req.authorization.value[7..]).Some? ==>
            && (req.body.None? ==> r == (Response(400, ErrorBody(InvalidJsonBody)), kv1))
            && (req.body.Some? && ParseRegisterBody(req.body.value).None? ==>
                  r == (Response(400, ErrorBody(InvalidRequestBody)), kv1))
            // a request that passes all five checks is registered
            && (req.body.Some? && ParseRegisterBody(req.body.value).Some? ==> r.0.status == 201))
    ensures r.0.status == 201 ==>
      var user := githubUser(req.authorization.value[7..]).value;
      var jwk := ParseRegisterBody(req.body.value).value;
      && r.0.body == KeyBody(user.login, jwk, nowIso)
      && Lookup(r.1, user.login) == Some(StoredKey(user.login, user.id, jwk, nowIso))
      && (forall u :: u != user.login ==> Lookup(r.1, u) == Lookup(kv, u))
    ensures r.0.status != 201 ==> forall u :: Lookup(r.1, u) == Lookup(kv, u)
    ensures RegistryValid(kv) ==> RegistryValid(r.1)
  {
    var (allowed, kv1) := CheckRateLimit(kv, ClientIp(req), RegisterEndpoint, RegisterLimit, nowMs);
    if !allowed then (Response(429, ErrorBody(RateLimitExceeded)), kv)
    else if !HasBearer(req) then (Response(401, ErrorBody(MissingAuthorization)), kv1)
    else
      var token := req.authorization.value[7..];
      match githubUser(token)
      case None => (Response(401, ErrorBody(InvalidGithubToken)), kv1)
      case Some(user) =>
        if req.body.None? then (Response(400, ErrorBody(InvalidJsonBody)), kv1)
        else
          match ParseRegisterBody(req.body.value)
          case None => (Response(400, ErrorBody(InvalidRequestBody)), kv1)
          case Some(jwk) =>
            var stored := StoredKey(user.login, user.id, jwk, nowIso);
            var kv2 := kv1[RecordKey(user.login) := Record(stored)];
            RecordKeyInjective(user.login);
            (Response(201, KeyBody(user.login, jwk, nowIso)), kv2)
  }

  /** A registration request never uses up another endpoint's budget: the
      counters of the lookup and verification buckets do not grow. */
  lemma RegistrationSparesOtherBuckets(kv: Kv, req: HttpRequest, githubUser: string -> Option<GithubUser>,
                                       nowMs: int, nowIso: string, ip: string, endpoint: string, minute: int)
    requires IsEndpoint(endpoint) && endpoint != RegisterEndpoint
    ensures Count(PostKeys(kv, req, githubUser, nowMs, nowIso).1, RateKey(ip, endpoint, minute))
         <= Count(kv, RateKey(ip, endpoint, minute))
  {
    BucketsIndependent(kv, ClientIp(req), RegisterEndpoint, RegisterLimit, nowMs, ip, endpoint, minute);
  }

  /** Different users' records live under different keys. */
  lemma RecordKeyInjective(login: string)
    ensures forall u :: RecordKey(u) == RecordKey(login) ==> u == login
  {
    forall u | RecordKey(u) == RecordKey(login) ensures u == login {
      assert u == RecordKey(u)[4..] == RecordKey(login)[4..] == login;
    }
  }

  // ---------------------------------------------------------------------
  // GET /v1/keys/:username

  /** `GET /v1/keys/:username`: rate limit, then the username pattern, and
      only then the KV lookup. */
  function GetKey(kv: Kv, req: HttpRequest, username: string, nowMs: int): (r: (Response, Kv))
    ensures var (allowed, kv1) := CheckRateLimit(kv, ClientIp(req), LookupEndpoint, LookupLimit, nowMs);
      && (!allowed ==> r.0 == Response(429, ErrorBody(RateLimitExceeded)))
      && r.1 == kv1
      && (allowed && !Storage.IsValidUsername(username) ==>
            r.0 == Response(400, ErrorBody(Storage.InvalidUsernameFormat)))
      && (allowed && Storage.IsValidUsername(username) ==>
            match Lookup(kv, username)
            case None => r.0 == Response(404, ErrorBody(KeyNotFound))
            case Some(s) => r.0 == Response(200, KeyBody(s.github, s.publicKey, s.registeredAt)))
  {
    var (allowed, kv1) := CheckRateLimit(kv, ClientIp(req), LookupEndpoint, LookupLimit, nowMs);
    if !allowed then (Response(429, ErrorBody(RateLimitExceeded)), kv1)
    else if !Storage.IsValidUsername(username) then
      (Response(400, ErrorBody(Storage.InvalidUsernameFormat)), kv1)
    else
      match Lookup(kv1, username)
      case None => (Response(404, ErrorBody(KeyNotFound)), kv1)
      case Some(s) => (Response(200, KeyBody(s.github, s.publicKey, s.registeredAt)), kv1)
  }

  /** A malformed name is refused before the store is read: whatever
      records two stores hold, with equal counters the answers agree. */
  lemma MalformedNameIgnoresRecords(kv: Kv, kv': Kv, req: HttpRequest, username: string, nowMs: int)
    requires !Storage.IsValidUsername(username)
    requires var key := RateKey(ClientIp(req), LookupEndpoint, Minute(nowMs)); Count(kv, key) == Count(kv', key)
    ensures GetKey(kv, req, username, nowMs).0 == GetKey(kv', req, username, nowMs).0
  {
  }

  /** A registration is served back by the lookup: the login, the key the
      schema accepted and the registration time. */
  lemma RegisterThenLookup(kv: Kv, req: HttpRequest, githubUser: string -> Option<GithubUser>,
                           nowMs: int, nowIso: string, lookup: HttpRequest, laterMs: int)
    requires PostKeys(kv, req, githubUser, nowMs, nowIso).0.status == 201
    requires var kv1 := PostKeys(kv, req, githubUser, nowMs, nowIso).1;
      Count(kv1, RateKey(ClientIp(lookup), LookupEndpoint, Minute(laterMs))) < LookupLimit
    requires Storage.IsValidUsername(githubUser(req.authorization.value[7..]).value.login)
    ensures var kv1 := PostKeys(kv, req, githubUser, nowMs, nowIso).1;
      var login := githubUser(req.authorization.value[7..]).value.login;
      GetKey(kv1, lookup, login, laterMs).0
      == Response(200, KeyBody(login, ParseRegisterBody(req.body.value).value, nowIso))
  {
  }

  // ---------------------------------------------------------------------
  // POST /v1/verify

  /** The outcome of the checks after the rate limit: a refusal, or the
      accepted record, envelope and signed claims. */
  datatype Checked = Refused(response: Response) | Accepted(stored: StoredKey, envelope: Envelope, claims: Claims)

  /** `importJWK({ ...public_key, kty: 'OKP', crv: 'Ed25519' }, 'EdDSA')`. */
  function ImportStored(jwk: Jwk): (r: Result<PublicKey>)
    ensures r == Success(PublicKey(jwk.x))
  {
    ImportPublicJwk(jwk.(kty := KeyTypeOkp, crv := CurveEd25519))
  }

  /** The checks on the signed claims, in the registry's order: issuer,
      then content hash, then the window, then that `signed_at` can be
      rendered. The hash comparison is `constantTimeEqual`, which decides
      string equality (ConstantTimeEqual). */
  function CheckClaims(p: Primitives, stored: StoredKey, env: Envelope, c: Claims, nowMs: int): (r: Checked)
    ensures r.Refused? ==> r.response.status == 400
    ensures r.Accepted? <==>
      && c.iss == Signer.Issuer(env.agentcred.github)
      && c.contentHash == Signer.ContentHash(p, env.content)
      && Verifier.InWindow(nowMs / 1000, c.iat)
      && Verifier.HasIsoTime(c.iat)
    ensures r.Accepted? ==> r == Accepted(stored, env, c)
  {
    if c.iss != Signer.Issuer(env.agentcred.github) then Refused(Response(400, Refusal(IssuerMismatch)))
    else if c.contentHash != Signer.ContentHash(p, env.content) then Refused(Response(400, Refusal(ContentTampered)))
    else if !Verifier.InWindow(nowMs / 1000, c.iat) then Refused(Response(400, Refusal(TimestampOutOfRange)))
    else if !Verifier.HasIsoTime(c.iat) then Refused(Response(400, Refusal(VerificationFailed)))
    else Accepted(stored, env, c)
  }

  /** Inside the `try`: import the stored key, verify the token, check the
      algorithm and parse the claims, then `CheckClaims`. Every exception
      (import, signature, `JSON.parse`, `toISOString`) becomes
      'Verification failed'. */
  function CheckToken(p: Primitives, stored: StoredKey, env: Envelope, nowMs: int): (r: Checked)
    ensures r.Refused? ==> r.response.status == 400
    // a token that does not verify, or whose payload is not JSON, is
    // 'Verification failed'; a verified EdDSA token with readable claims is
    // accepted exactly when `CheckClaims` accepts them
    ensures var decoded := CompactVerify(p, env.agentcred.jws, PublicKey(stored.publicKey.x));
      && (decoded.Failure? ==> r == Refused(Response(400, Refusal(VerificationFailed))))
      && (decoded.Success? && decoded.value.header.alg != Signer.Algorithm ==>
            r == Refused(Response(400, Refusal(InvalidAlgorithm))))
      && (decoded.Success? && decoded.value.header.alg == Signer.Algorithm ==>
            match p.parseClaims(decoded.value.payload)
            case None => r == Refused(Response(400, Refusal(VerificationFailed)))
            case Some(c) => r == CheckClaims(p, stored, env, c, nowMs))
    ensures r.Accepted? ==>
      && (var decoded := CompactVerify(p, env.agentcred.jws, PublicKey(stored.publicKey.x));
          && decoded.Success? && decoded.value.header.alg == Signer.Algorithm
          && p.parseClaims(decoded.value.payload) == Some(r.claims))
      && r == CheckClaims(p, stored, env, r.claims, nowMs)
  {
    match ImportStored(stored.publicKey)
    case Failure(_) => Refused(Response(400, Refusal(VerificationFailed)))
    case Success(key) =>
      match CompactVerify(p, env.agentcred.jws, key)
      case Failure(_) => Refused(Response(400, Refusal(VerificationFailed)))
      case Success(decoded) =>
        if decoded.header.alg != Signer.Algorithm then Refused(Response(400, Refusal(InvalidAlgorithm)))
        else
          match p.parseClaims(decoded.payload)
          case None => Refused(Response(400, Refusal(VerificationFailed)))
          case Some(c) => CheckClaims(p, stored, env, c, nowMs)
  }

  /** The checks of `POST /v1/verify` after the rate limit: the body, the
      envelope schema, the registered key, then `CheckToken`. */
  function CheckEnvelope(p: Primitives, kv: Kv, body: Option<Json>, nowMs: int): (r: Checked)
    ensures r.Refused? ==> r.response.status in {400, 404}
    ensures body.None? ==> r == Refused(Response(400, ErrorBody(InvalidJsonBody)))
    ensures body.Some? ==>
      match ParseEnvelopeJson(EnvelopeData(body.value))
      case None => r == Refused(Response(400, Refusal(InvalidEnvelopeFormat)))
      case Some(env) =>
        match Lookup(kv, env.agentcred.github)
        case None => r == Refused(Response(404, Refusal(NoRegisteredKey + env.agentcred.github)))
        case Some(stored) => r == CheckToken(p, stored, env, nowMs)
    ensures r.Accepted? ==>
      && body.Some? && ParseEnvelopeJson(EnvelopeData(body.value)) == Some(r.envelope)
      && Lookup(kv, r.envelope.agentcred.github) == Some(r.stored)
      && (var decoded := CompactVerify(p, r.envelope.agentcred.jws, PublicKey(r.stored.publicKey.x));
          && decoded.Success? && decoded.value.header.alg == Signer.Algorithm
          && p.parseClaims(decoded.value.payload) == Some(r.claims))
      && r.claims.iss == Signer.Issuer(r.envelope.agentcred.github)
      && r.claims.contentHash == Signer.ContentHash(p, r.envelope.content)
      && Verifier.InWindow(nowMs / 1000, r.claims.iat)
  {
    if body.None? then Refused(Response(400, ErrorBody(InvalidJsonBody)))
    else
      match ParseEnvelopeJson(EnvelopeData(body.value))
      case None => Refused(Response(400, Refusal(InvalidEnvelopeFormat)))
      case Some(env) =>
        var github := env.agentcred.github;
        match Lookup(kv, github)
        case None => Refused(Response(404, Refusal(NoRegisteredKey + github)))
        case Some(stored) => CheckToken(p, stored, env, nowMs)
  }

  /** The token of an envelope signed with `d` (whatever else in the
      envelope was changed) passes `CheckToken` under a record holding the
      signer's key, leaving the signed claims to `CheckClaims`. */
  lemma SignedTokenChecked(p: Primitives, stored: StoredKey, content: string, github: string, d: string,
                           options: SignOptions, signMs: int, nonce: string, nowMs: int, env: Envelope)
    requires Sound(p)
    requires stored.publicKey.x == p.publicOf(d)
    requires env.agentcred.jws == Verifier.SignedBy(p, content, github, d, options, signMs, nonce).agentcred.jws
    ensures CheckToken(p, stored, env, nowMs)
         == CheckClaims(p, stored, env, Signer.MakeClaims(p, content, github, options.agent.GetOr(Signer.DefaultAgent),
                                                          options.contentType.GetOr(Signer.DefaultContentType),
                                                          signMs, nonce), nowMs)
  {
    var c := Signer.MakeClaims(p, content, github, options.agent.GetOr(Signer.DefaultAgent),
                               options.contentType.GetOr(Signer.DefaultContentType), signMs, nonce);
    CompactRoundTrip(p, Signer.MakeHeader(github), c, d);
  }

  /** An envelope whose JSON is the body and whose user has a record is
      handed to `CheckToken` with that record. */
  lemma EnvelopeReachesToken(p: Primitives, kv: Kv, env: Envelope, nowMs: int)
    requires Lookup(kv, env.agentcred.github).Some?
    ensures CheckEnvelope(p, kv, Some(EnvelopeToJson(env)), nowMs)
         == CheckToken(p, Lookup(kv, env.agentcred.github).value, env, nowMs)
  {
    EnvelopeBodiesAccepted(env);
  }

  /** `POST /v1/verify` as written: the reported agent is the envelope's
      unsigned `agent` member. */
  function PostVerifyAsWritten(p: Primitives, kv: Kv, req: HttpRequest, nowMs: int): (r: (Response, Kv))
    ensures r.1 == CheckRateLimit(kv, ClientIp(req), VerifyEndpoint, VerifyLimit, nowMs).1
    ensures Count(kv, RateKey(ClientIp(req), VerifyEndpoint, Minute(nowMs))) >= VerifyLimit ==>
      r.0 == Response(429, ErrorBody(RateLimitExceeded))
    ensures r.0.status == 200 ==>
      var checked := CheckEnvelope(p, kv, req.body, nowMs);
      checked.Accepted? && r.0.body.VerifiedBody? && r.0.body.agent == checked.envelope.agentcred.agent
  {
    var (allowed, kv1) := CheckRateLimit(kv, ClientIp(req), VerifyEndpoint, VerifyLimit, nowMs);
    if !allowed then (Response(429, ErrorBody(RateLimitExceeded)), kv1)
    else
      match CheckEnvelope(p, kv1, req.body, nowMs)
      case Refused(response) => (response, kv1)
      case Accepted(stored, env, c) =>
        (Response(200, VerifiedBody(stored.github, stored.githubId, env.agentcred.agent, c.iat)), kv1)
  }

  /** `POST /v1/verify` reporting the signed subject as the agent, as the
      SDK's `verifyOffline` does. */
  function PostVerify(p: Primitives, kv: Kv, req: HttpRequest, nowMs: int): (r: (Response, Kv))
    ensures r.1 == CheckRateLimit(kv, ClientIp(req), VerifyEndpoint, VerifyLimit, nowMs).1
    ensures Count(kv, RateKey(ClientIp(req), VerifyEndpoint, Minute(nowMs))) >= VerifyLimit ==>
      r.0 == Response(429, ErrorBody(RateLimitExceeded))
    ensures r.0.status in {200, 400, 404, 429}
    ensures r.0.status == 200 ==>
      var checked := CheckEnvelope(p, kv, req.body, nowMs);
      && checked.Accepted?
      && r.0.body == VerifiedBody(checked.stored.github, checked.stored.githubId, checked.claims.sub,
                                  checked.claims.iat)
  {
    var (allowed, kv1) := CheckRateLimit(kv, ClientIp(req), VerifyEndpoint, VerifyLimit, nowMs);
    if !allowed then (Response(429, ErrorBody(RateLimitExceeded)), kv1)
    else
      match CheckEnvelope(p, kv1, req.body, nowMs)
      case Refused(response) => (response, kv1)
      case Accepted(stored, env, c) =>
        (Response(200, VerifiedBody(stored.github, stored.githubId, c.sub, c.iat)), kv1)
  }

  /** The checks read only the key records: stores that agree on every
      user's record check every body alike. */
  lemma CheckEnvelopeReadsOnlyRecords(p: Primitives, kv: Kv, kv': Kv, body: Option<Json>, nowMs: int)
    requires forall u :: Lookup(kv', u) == Lookup(kv, u)
    ensures CheckEnvelope(p, kv', body, nowMs) == CheckEnvelope(p, kv, body, nowMs)
  {
    if body.Some? && ParseEnvelopeJson(EnvelopeData(body.value)).Some? {
      var github := ParseEnvelopeJson(EnvelopeData(body.value)).value.agentcred.github;
      assert Lookup(kv', github) == Lookup(kv, github);
    }
  }

  /** Below the limit, both versions of the handler answer with the
      refusal of the checks, or with 200 and the accepted record; they
      differ only in where the reported agent comes from. */
  lemma VerifyAnswers(p: Primitives, kv: Kv, req: HttpRequest, nowMs: int)
    requires Count(kv, RateKey(ClientIp(req), VerifyEndpoint, Minute(nowMs))) < VerifyLimit
    ensures var checked := CheckEnvelope(p, kv, req.body, nowMs);
      && (checked.Refused? ==>
            PostVerify(p, kv, req, nowMs).0 == checked.response == PostVerifyAsWritten(p, kv, req, nowMs).0)
      && (checked.Accepted? ==>
            && PostVerify(p, kv, req, nowMs).0 == Response(200, VerifiedBody(checked.stored.github,
                 checked.stored.githubId, checked.claims.sub, checked.claims.iat))
            && PostVerifyAsWritten(p, kv, req, nowMs).0 == Response(200, VerifiedBody(checked.stored.github,
                 checked.stored.githubId, checked.envelope.agentcred.agent, checked.claims.iat)))
  {
    var kv1 := CheckRateLimit(kv, ClientIp(req), VerifyEndpoint, VerifyLimit, nowMs).1;
    CheckEnvelopeReadsOnlyRecords(p, kv, kv1, req.body, nowMs);
  }

  // ---------------------------------------------------------------------
  // Verification properties

  /** A request whose body is the signed envelope `env`. */
  function EnvelopeRequest(env: Envelope): HttpRequest
  {
    HttpRequest(None, None, None, Some(EnvelopeToJson(env)))
  }

  /** An envelope signed by a user whose registered key is the signer's is
      accepted exactly when the server's clock is within a day of the
      signing second, and then carries the signed claims. */
  lemma SignedEnvelopeChecked(p: Primitives, kv: Kv, content: string, github: string, d: string,
                              options: SignOptions, signMs: int, nonce: string, nowMs: int)
    requires Sound(p)
    requires Verifier.HasIsoTime(signMs / 1000)
    requires Lookup(kv, github).Some? && Lookup(kv, github).value.publicKey.x == p.publicOf(d)
    ensures var env := Verifier.SignedBy(p, content, github, d, options, signMs, nonce);
      var checked := CheckEnvelope(p, kv, Some(EnvelopeToJson(env)), nowMs);
      && (Verifier.InWindow(nowMs / 1000, signMs / 1000) ==>
            && checked.Accepted? && checked.stored == Lookup(kv, github).value && checked.envelope == env
            && checked.claims.sub == options.agent.GetOr(Signer.DefaultAgent)
            && checked.claims.iat == signMs / 1000)
      && (!Verifier.InWindow(nowMs / 1000, signMs / 1000) ==>
            checked == Refused(Response(400, Refusal(TimestampOutOfRange))))
  {
    var env := Verifier.SignedBy(p, content, github, d, options, signMs, nonce);
    var c := Signer.MakeClaims(p, content, github, options.agent.GetOr(Signer.DefaultAgent),
                               options.contentType.GetOr(Signer.DefaultContentType), signMs, nonce);
    EnvelopeReachesToken(p, kv, env, nowMs);
    SignedTokenChecked(p, Lookup(kv, github).value, content, github, d, options, signMs, nonce, nowMs, env);
    assert c.contentHash == Signer.ContentHash(p, env.content);
  }

  /** Over HTTP: while the caller is under the verification limit, an
      envelope signed under a user's registered key is answered with 200,
      the registered login and id, the signed agent and the signing second. */
  lemma SignedEnvelopeVerified(p: Primitives, kv: Kv, content: string, github: string, d: string,
                               options: SignOptions, signMs: int, nonce: string, nowMs: int)
    requires Sound(p)
    requires Verifier.HasIsoTime(signMs / 1000) && Verifier.InWindow(nowMs / 1000, signMs / 1000)
    requires Lookup(kv, github).Some? && Lookup(kv, github).value.publicKey.x == p.publicOf(d)
    requires Count(kv, RateKey(UnknownIp, VerifyEndpoint, Minute(nowMs))) < VerifyLimit
    ensures var env := Verifier.SignedBy(p, content, github, d, options, signMs, nonce);
      var stored := Lookup(kv, github).value;
      PostVerify(p, kv, EnvelopeRequest(env), nowMs).0
      == Response(200, VerifiedBody(stored.github, stored.githubId, options.agent.GetOr(Signer.DefaultAgent), signMs / 1000))
  {
    var env := Verifier.SignedBy(p, content, github, d, options, signMs, nonce);
    var req := EnvelopeRequest(env);
    assert ClientIp(req) == UnknownIp;
    SignedEnvelopeChecked(p, kv, content, github, d, options, signMs, nonce, nowMs);
    VerifyAnswers(p, kv, req, nowMs);
  }

  /** Register, then verify: an envelope signed with the key a user
      registered is verified with the user's login and id, the signed agent
      and the signing second. */
  lemma RegisterThenVerify(p: Primitives, kv: Kv, req: HttpRequest, githubUser: string -> Option<GithubUser>,
                           registerMs: int, registerIso: string, d: string, content: string,
                           options: SignOptions, signMs: int, nonce: string, nowMs: int)
    requires Sound(p)
    requires Verifier.HasIsoTime(signMs / 1000) && Verifier.InWindow(nowMs / 1000, signMs / 1000)
    requires Count(kv, RateKey(ClientIp(req), RegisterEndpoint, Minute(registerMs))) < RegisterLimit
    requires HasBearer(req) && githubUser(req.authorization.value[7..]).Some?
    requires req.body == Some(RegisterBody(PublicJwk(p.publicOf(d))))
    requires Count(kv, RateKey(UnknownIp, VerifyEndpoint, Minute(nowMs))) < VerifyLimit
    ensures var user := githubUser(req.authorization.value[7..]).value;
      var kv1 := PostKeys(kv, req, githubUser, registerMs, registerIso).1;
      var env := Verifier.SignedBy(p, content, user.login, d, options, signMs, nonce);
      PostVerify(p, kv1, EnvelopeRequest(env), nowMs).0
      == Response(200, VerifiedBody(user.login, user.id, options.agent.GetOr(Signer.DefaultAgent), signMs / 1000))
  {
    var user := githubUser(req.authorization.value[7..]).value;
    var kv1 := PostKeys(kv, req, githubUser, registerMs, registerIso).1;
    SdkRegistrationAccepted(p.publicOf(d));
    RegistrationSparesOtherBuckets(kv, req, githubUser, registerMs, registerIso, UnknownIp, VerifyEndpoint, Minute(nowMs));
    assert PostKeys(kv, req, githubUser, registerMs, registerIso).0.status == 201;
    assert Lookup(kv1, user.login) == Some(StoredKey(user.login, user.id, PublicJwk(p.publicOf(d)), registerIso));
    SignedEnvelopeVerified(p, kv1, content, user.login, d, options, signMs, nonce, nowMs);
  }


  /** The issuer is checked before the hash: with both the user and the
      content changed, and the other user registered under the signer's
      key, the issuer mismatch is what is reported. */
  lemma IssuerCheckedBeforeHash(p: Primitives, kv: Kv, content: string, github: string, d: string,
                                options: SignOptions, signMs: int, nonce: string, nowMs: int,
                                otherContent: string, otherGithub: string)
    requires Sound(p)
    requires otherGithub != github
    requires Lookup(kv, otherGithub).Some? && Lookup(kv, otherGithub).value.publicKey.x == p.publicOf(d)
    ensures var env := Verifier.SignedBy(p, content, github, d, options, signMs, nonce);
      var forged := Envelope(env.agentcred.(github := otherGithub), otherContent);
      CheckEnvelope(p, kv, Some(EnvelopeToJson(forged)), nowMs) == Refused(Response(400, Refusal(IssuerMismatch)))
  {
    var env := Verifier.SignedBy(p, content, github, d, options, signMs, nonce);
    var forged := Envelope(env.agentcred.(github := otherGithub), otherContent);
    var c := Signer.MakeClaims(p, content, github, options.agent.GetOr(Signer.DefaultAgent),
                               options.contentType.GetOr(Signer.DefaultContentType), signMs, nonce);
    EnvelopeReachesToken(p, kv, forged, nowMs);
    SignedTokenChecked(p, Lookup(kv, otherGithub).value, content, github, d, options, signMs, nonce, nowMs, forged);
    Signer.IssuerInjective(otherGithub, github);
  }

  /** Content changed after signing (to one with another digest) is
      reported as tampered. */
  lemma TamperedContentRefused(p: Primitives, kv: Kv, content: string, github: string, d: string,
                               options: SignOptions, signMs: int, nonce: string, nowMs: int, other: string)
    requires Sound(p)
    requires p.sha256Hex(other) != p.sha256Hex(content)
    requires Lookup(kv, github).Some? && Lookup(kv, github).value.publicKey.x == p.publicOf(d)
    ensures var env := Verifier.SignedBy(p, content, github, d, options, signMs, nonce);
      CheckEnvelope(p, kv, Some(EnvelopeToJson(env.(content := other))), nowMs)
      == Refused(Response(400, Refusal(ContentTampered)))
  {
    var env := Verifier.SignedBy(p, content, github, d, options, signMs, nonce);
    var tampered := env.(content := other);
    var c := Signer.MakeClaims(p, content, github, options.agent.GetOr(Signer.DefaultAgent),
                               options.contentType.GetOr(Signer.DefaultContentType), signMs, nonce);
    EnvelopeReachesToken(p, kv, tampered, nowMs);
    SignedTokenChecked(p, Lookup(kv, github).value, content, github, d, options, signMs, nonce, nowMs, tampered);
    assert Signer.ContentHash(p, other) != Signer.ContentHash(p, content) by {
      assert Signer.ContentHash(p, other)[7..] == p.sha256Hex(other);
      assert Signer.ContentHash(p, content)[7..] == p.sha256Hex(content);
    }
  }

  /** The token checks never read the envelope's `agent` member. */
  lemma TokenIgnoresAgent(p: Primitives, stored: StoredKey, env: Envelope, forged: string, nowMs: int)
    ensures var tampered := env.(agentcred := env.agentcred.(agent := forged));
      var checked := CheckToken(p, stored, env, nowMs);
      CheckToken(p, stored, tampered, nowMs) == if checked.Accepted? then checked.(envelope := tampered) else checked
  {
    var tampered := env.(agentcred := env.agentcred.(agent := forged));
    match CompactVerify(p, env.agentcred.jws, PublicKey(stored.publicKey.x))
    case Failure(_) =>
    case Success(decoded) =>
      match p.parseClaims(decoded.payload)
      case None =>
      case Some(c) =>
        assert CheckClaims(p, stored, tampered, c, nowMs)
            == if CheckClaims(p, stored, env, c, nowMs).Accepted? then Accepted(stored, tampered, c)
               else CheckClaims(p, stored, env, c, nowMs);
  }

  /** The checks never read the envelope's `agent` member: rewriting it
      changes neither a refusal nor the record and claims of an acceptance. */
  lemma AgentNotChecked(p: Primitives, kv: Kv, env: Envelope, forged: string, nowMs: int)
    ensures var tampered := env.(agentcred := env.agentcred.(agent := forged));
      var checked := CheckEnvelope(p, kv, Some(EnvelopeToJson(env)), nowMs);
      CheckEnvelope(p, kv, Some(EnvelopeToJson(tampered)), nowMs)
      == if checked.Accepted? then checked.(envelope := tampered) else checked
  {
    var tampered := env.(agentcred := env.agentcred.(agent := forged));
    EnvelopeBodiesAccepted(env);
    EnvelopeBodiesAccepted(tampered);
    if Lookup(kv, env.agentcred.github).Some? {
      TokenIgnoresAgent(p, Lookup(kv, env.agentcred.github).value, env, forged, nowMs);
    }
  }


  /** The as-written handler reports whatever `agent` the envelope
      carries: rewrite that unsigned member of any envelope the registry
      accepts, and the forged name is reported with the record's user. */
  lemma ForgedAgentReported(p: Primitives, kv: Kv, env: Envelope, forged: string, nowMs: int)
    requires Count(kv, RateKey(UnknownIp, VerifyEndpoint, Minute(nowMs))) < VerifyLimit
    requires CheckEnvelope(p, kv, Some(EnvelopeToJson(env)), nowMs).Accepted?
    ensures var checked := CheckEnvelope(p, kv, Some(EnvelopeToJson(env)), nowMs);
      var tampered := env.(agentcred := env.agentcred.(agent := forged));
      PostVerifyAsWritten(p, kv, EnvelopeRequest(tampered), nowMs).0
      == Response(200, VerifiedBody(checked.stored.github, checked.stored.githubId, forged, checked.claims.iat))
  {
    var tampered := env.(agentcred := env.agentcred.(agent := forged));
    var req := EnvelopeRequest(tampered);
    assert ClientIp(req) == UnknownIp;
    AgentNotChecked(p, kv, env, forged, nowMs);
    VerifyAnswers(p, kv, req, nowMs);
  }


  /** Rewriting the envelope's `agent` member leaves the checks accepting,
      with the signed claims unchanged. */
  lemma ForgedAgentChecked(p: Primitives, kv: Kv, content: string, github: string, d: string,
                           options: SignOptions, signMs: int, nonce: string, nowMs: int, forged: string)
    requires Sound(p)
    requires Verifier.HasIsoTime(signMs / 1000) && Verifier.InWindow(nowMs / 1000, signMs / 1000)
    requires Lookup(kv, github).Some? && Lookup(kv, github).value.publicKey.x == p.publicOf(d)
    ensures var env := Verifier.SignedBy(p, content, github, d, options, signMs, nonce);
      var tampered := env.(agentcred := env.agentcred.(agent := forged));
      var checked := CheckEnvelope(p, kv, Some(EnvelopeToJson(tampered)), nowMs);
      && checked.Accepted? && checked.envelope == tampered
      && checked.claims.sub == options.agent.GetOr(Signer.DefaultAgent)
  {
    var env := Verifier.SignedBy(p, content, github, d, options, signMs, nonce);
    var tampered := env.(agentcred := env.agentcred.(agent := forged));
    var c := Signer.MakeClaims(p, content, github, options.agent.GetOr(Signer.DefaultAgent),
                               options.contentType.GetOr(Signer.DefaultContentType), signMs, nonce);
    EnvelopeReachesToken(p, kv, tampered, nowMs);
    SignedTokenChecked(p, Lookup(kv, github).value, content, github, d, options, signMs, nonce, nowMs, tampered);
    assert c.contentHash == Signer.ContentHash(p, tampered.content);
  }

  /** With the corrected handler the `agent` member makes no difference:
      an accepted envelope and its rewritten copy get the same answer, and
      that answer names the subject of the verified token's claims. */
  lemma ReportedAgentIsSigned(p: Primitives, kv: Kv, env: Envelope, forged: string, nowMs: int)
    requires Count(kv, RateKey(UnknownIp, VerifyEndpoint, Minute(nowMs))) < VerifyLimit
    requires CheckEnvelope(p, kv, Some(EnvelopeToJson(env)), nowMs).Accepted?
    ensures var checked := CheckEnvelope(p, kv, Some(EnvelopeToJson(env)), nowMs);
      var tampered := env.(agentcred := env.agentcred.(agent := forged));
      && PostVerify(p, kv, EnvelopeRequest(tampered), nowMs).0 == PostVerify(p, kv, EnvelopeRequest(env), nowMs).0
      && PostVerify(p, kv, EnvelopeRequest(env), nowMs).0
         == Response(200, VerifiedBody(checked.stored.github, checked.stored.githubId, checked.claims.sub, checked.claims.iat))
  {
    var tampered := env.(agentcred := env.agentcred.(agent := forged));
    assert ClientIp(EnvelopeRequest(tampered)) == UnknownIp;
    assert ClientIp(EnvelopeRequest(env)) == UnknownIp;
    AgentNotChecked(p, kv, env, forged, nowMs);
    VerifyAnswers(p, kv, EnvelopeRequest(tampered), nowMs);
    VerifyAnswers(p, kv, EnvelopeRequest(env), nowMs);
  }

}
