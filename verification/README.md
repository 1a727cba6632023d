# AgentCred in Dafny

AgentCred lets an AI agent's output carry its human's accountability. A
GitHub user holds an Ed25519 key pair. The public half is registered with
the AgentCred registry; the private half signs content into an *envelope*.
An envelope holds a compact JWS and names the user and the agent; the JWS
is over a claim set with the issuer `<user>@agentcred`, the agent as
subject, the signing second, and the SHA-256 of the content. Anyone can
then verify the envelope against the registered key.

This project models the core of that system and proves properties of it:

- `Signer` (sign.dfy): `sign`, which builds the claims and the protected
  header and signs them.
- `Verifier` (verify.dfy): `verifyOffline` and `verify`, with their checks
  in the source's order.
- `Identity` (identity.dfy): `createIdentity`, `loadIdentity` and
  `resolvePublicKey`. The network is a function from requests to replies.
- `Storage` (storage.dfy): the in-memory and filesystem key storage. This
  covers the handle pattern, `path.resolve` and the containment check.
- `OAuth` (oauth.dfy): the GitHub device flow. The polling loop runs on
  an explicit clock against a script of token-endpoint answers, one per
  request, each a function of the form body that request carries.
- `SignHtml` (signhtml.dfy): `escapeHTML` and `signWithHTML`, and a reader
  that takes the element apart again.
- `Registry` (api.dfy): the registry service. It covers the per-minute rate
  limiter, `constantTimeEqual`, key registration, key lookup and envelope
  verification over a key-value store.
- `Vercel` (vercel.dfy): the Vercel AI SDK middleware, for generation and
  for streams.
- `Mastra` (mastra.dfy): the Mastra signed-tool wrapper and the
  sign/verify tools.

Some modules are support:

- `Wrappers`: `Option`, `Result` and JavaScript truthiness.
- `Strings`: `indexOf`, `replace`, `split`/`join`, UTF-16 code units and
  UTF-8 length.
- `Types`: JWKs, claims, envelopes and verify results.
- `Jose`: compact JWS signing and verification, and JWK import.
- `Primitives`: the foreign code.

**Foreign code and the environment.** Foreign code is a record of
functions passed to every operation. It covers:

- SHA-256 as lower-case hex;
- base64 and base64url;
- the JSON text of the typed records, and their parsing;
- Ed25519 key derivation, signing and verification;
- jose's algorithm acceptance.

The ghost predicate `Primitives.Sound` collects what the proofs assume of
these functions:

- parsing the JSON of a value gives the value back;
- base64 and base64url decoding inverts encoding, base64 stays in its
  alphabet and base64url never writes a '.';
- a signature verifies exactly under the signer's public key;
- "EdDSA" is accepted;
- digests are 64 lower-case hex characters.

Collision resistance is not assumed. Where a property needs two contents
to hash differently, the lemma states that as a hypothesis.

The environment is passed in explicitly:

- The clock is an explicit `nowMs` parameter.
- Nonces (`randomUUID`) and freshly generated private scalars are
  parameters.
- Every HTTP exchange is a reply looked up from the request that was sent.

**JavaScript semantics.** These are written out where they matter:

- `||` and `!x` follow truthiness, and `??` only skips an absent value.
- `.length` and `charCodeAt` count UTF-16 code units.
- `Buffer` lengths count UTF-8 bytes.
- `Math.floor` of a division is Dafny's Euclidean `/`, because the divisor
  is positive.
- `String(n)` is the decimal numeral, with a minus sign for negatives.
- `replace` with a string pattern replaces only the first occurrence.
- `setTimeout` clamps its delay to the range 1 to 2^31 - 1 milliseconds.

**Where the code's documentation and its behaviour differ, or the SDK
and the registry differ, the model follows the behaviour of each:**

- The registry checks the issuer before the content hash. The SDK's
  `verifyOffline` checks the hash first. Both orders are modelled and
  proved (`Registry.IssuerCheckedBeforeHash`,
  `Verifier.HashCheckedBeforeIssuer`).
- The registry compares the whole `content_hash` claim with
  `"sha256:" + digest`. The SDK removes the first `"sha256:"` wherever it
  occurs and compares the rest with the digest.
- The OAuth loop treats an empty `error` member as no error, so it returns
  the (possibly absent) token (`OAuth.EmptyErrorIsGrant`).
- The filesystem storage refuses every name when its key directory is the
  root `/`. The containment check then asks for a `//` prefix
  (`Storage.ValidNameStaysInside`).

## Model

| member | source | states |
|---|---|---|
| Signer.IssuerInjective | packages/sdk/src/sign.ts:16 | distinct GitHub users get distinct `<user>@agentcred` issuers and key ids |
| Signer.MakeClaims | packages/sdk/src/sign.ts:15-22 | the `iat` claim is the whole second containing the signing instant (`Math.floor(Date.now() / 1000)`) |
| Signer.Sign | packages/sdk/src/sign.ts:5-43 | signing succeeds exactly for an Ed25519 private key; the envelope has version "1.0", the user, the agent (default 'default') and the content unchanged |
| Signer.SignedToken | packages/sdk/src/sign.ts:15-32 | verifying the token under the signer's public key yields the EdDSA / agentcred+jwt / `<user>@agentcred` header and claims with the issuer, the envelope's agent as subject, the content's hash, the resolved content type (default text/plain) and the signing second |
| Signer.SignedTokenHasThreeSegments | packages/sdk/src/sign.ts:24-32 | the token is a compact JWS: exactly three dot-separated segments |
| Signer.SignTwiceDiffers | packages/sdk/src/sign.ts:13-21 | two signatures of the same content with different nonces share the content hash but have different tokens |
| Jose.CompactVerify | packages/sdk/src/verify.ts:30 | a token verifies only if it has three segments, its header algorithm is accepted, the signature verifies over the first two segments and the payload decodes |
| Jose.ImportPublicJwk | packages/sdk/src/verify.ts:18 | `importJWK(jwk, 'EdDSA')` succeeds for a well-formed key exactly when it is OKP/Ed25519, and keeps its `x` |
| Jose.ImportPrivateJwk | packages/sdk/src/identity.ts:65 | importing a well-formed stored JWK succeeds exactly when it is OKP/Ed25519, and gives a private key exactly when `d` is present, holding that `d` |
| Jose.ThreeSegments | packages/sdk/src/sign.ts:24-32 | a signed token splits into exactly three segments, none containing a dot |
| Jose.CompactRoundTrip | packages/sdk/src/sign.ts:24-32 | verifying a compact token under the signer's public key gives back the header and the serialised claims |
| Jose.OnlySignerKeyVerifies | packages/sdk/src/verify.ts:30 | a token fails `compactVerify` under every public key but the signer's |
| Jose.TokenDeterminesClaims | packages/sdk/src/sign.ts:24-32 | tokens signed over different claim sets differ |
| Strings.ReplaceFirstOfPrefix | packages/sdk/src/verify.ts:37 | `replace('sha256:', '')` on a string starting with the prefix leaves exactly the rest |
| Strings.Utf16Injective | packages/api/src/index.ts:94-97 | strings with equal UTF-16 code units are equal, so comparing `charCodeAt` values decides string equality |
| Verifier.HashCheck | packages/sdk/src/verify.ts:36-40 | the length test plus `timingSafeEqual` passes exactly when the two strings are equal; otherwise it yields the hash mismatch or the byte-length error |
| Verifier.DigestsCompare | packages/sdk/src/verify.ts:36-40 | two different hex digests always give 'Content hash mismatch', never the `timingSafeEqual` length error |
| Verifier.VerifyOffline | packages/sdk/src/verify.ts:25-66 | for any envelope the checks run in order (signature, algorithm, claims JSON, hash, issuer, window, renderable time) and the first that fails names the error; the result is verified exactly when all pass, reporting the user with id 0, the signed subject and `iat` |
| Verifier.Verify | packages/sdk/src/verify.ts:6-23 | no key from the registry gives 'Public key not found'; once a key resolves, the result is the import error or `verifyOffline`'s answer under the imported registry key, rejections included |
| Verifier.SignVerifyRoundTrip | packages/sdk/src/verify.ts:25-62 | an envelope verified under the signer's key succeeds exactly when the clock is within 86400 s of the signing second, reporting the user, the resolved agent and the signing second |
| Verifier.TamperedContent | packages/sdk/src/verify.ts:36-40 | content whose digest differs from the signed one is rejected with 'Content hash mismatch' at any time |
| Verifier.TamperedGithub | packages/sdk/src/verify.ts:42-45 | a changed `agentcred.github` is rejected with 'Issuer mismatch' |
| Verifier.HashCheckedBeforeIssuer | packages/sdk/src/verify.ts:36-45 | with both the content and the user changed, the hash mismatch is reported, not the issuer mismatch |
| Verifier.AgentFieldIgnored | packages/sdk/src/verify.ts:53-62 | the envelope's `agent` member changes nothing in `verifyOffline`; a verified result names the signed subject |
| Verifier.WrongKeyRejected | packages/sdk/src/verify.ts:30 | an envelope does not verify under any key but the signer's |
| Verifier.WindowBoundary | packages/sdk/src/verify.ts:47-51 | exactly 86400 s after signing still verifies; 86401 s after is rejected as outside the window |
| Verifier.VerifyUsesRegistryKey | packages/sdk/src/verify.ts:11-19 | when the registry serves the signer's public JWK, `verify` equals `verifyOffline` under the signer's key |
| Identity.ApiUrl | packages/sdk/src/identity.ts:10 | the configured URL wins, then `AGENTCRED_API_URL`, then https://api.agentcred.dev |
| Identity.Fingerprint | packages/sdk/src/identity.ts:23-25 | the fingerprint is a lower-case hex SHA-256 digest of the public JWK's JSON |
| Identity.ResolvePublicKey | packages/sdk/src/identity.ts:86-100 | a key is returned exactly when the lookup reply is ok and carries `public_key`; a non-ok reply, a network error or an unreadable body give null |
| Identity.CreateIdentity | packages/sdk/src/identity.ts:6-50 | the first request is the GitHub profile request with the token; no registration request ever carries the private scalar; storage stays consistent |
| Identity.CreateFailsOnGithub | packages/sdk/src/identity.ts:13-16 | a rejected profile request fails with 'GitHub authentication failed' before any registration or storage |
| Identity.CreateFailsOnRegistration | packages/sdk/src/identity.ts:27-38 | a rejected registration fails with 'Key registration failed' and leaves storage unchanged |
| Identity.CreateSucceeds | packages/sdk/src/identity.ts:38-49 | on success the identity carries the profile, the generated public key, its fingerprint and the registry's `registered_at`, and the private key is stored under the login and loads back |
| Identity.LoadIdentity | packages/sdk/src/identity.ts:52-84 | a storage error propagates with no request; an identity is loaded exactly when a key is stored, the registry serves a key and the stored key imports; a stored key that fails to import rejects with the import error; a loaded identity names the user with id 0, carries the registry's key, that key's recomputed fingerprint, `registeredAt` = now and the imported stored key, after exactly one registry request |
| Identity.LoadWithoutStoredKey | packages/sdk/src/identity.ts:59-60 | without a stored key the result is null and no request is made |
| Identity.LoadWithoutRegistryKey | packages/sdk/src/identity.ts:62-63 | with a stored key but no registry key the result is null |
| Identity.LoadAfterCreate | packages/sdk/src/identity.ts:52-84 | loading after creating gives the created public key and fingerprint, and the generated scalar as the signing key |
| Storage.UsernameCharacterisation | packages/sdk/src/storage.ts:34 | the handle pattern accepts exactly 1 to 39 characters that are alphanumeric at both ends and alphanumeric or '-' in between |
| Storage.MatchUsername | packages/sdk/src/storage.ts:34 | a left-to-right scan accepts exactly the names the pattern accepts |
| Storage.ValidUsernameHasNoPathSyntax | packages/sdk/src/storage.ts:34-39 | an accepted name contains neither '/' nor '.' |
| Storage.AcceptedExamples | packages/sdk/tests/storage.test.ts:167-180 | "a", "valid-user" and "alice-bob-123" are accepted |
| Storage.RejectedExamples | packages/sdk/tests/storage.test.ts:128-165 | "", "-leading", "trailing-", "under_score" and "../../../etc/passwd" are rejected |
| Storage.TooLongExample | packages/sdk/tests/storage.test.ts:146-150 | a 40-character name is rejected |
| Storage.MemorySave | packages/sdk/src/storage.ts:9-11 | `keys.set`: the map is updated; a new name is appended to the insertion order, and an existing one keeps its place |
| Storage.MemoryLoad | packages/sdk/src/storage.ts:13-15 | a key is returned exactly when the name was saved, and it is the saved key |
| Storage.MemoryList | packages/sdk/src/storage.ts:17-19 | lists every saved name exactly once and nothing else |
| Storage.MemorySaveLoad | packages/sdk/src/storage.ts:9-15 | after a save the name loads the saved key, and other names load what they loaded before |
| Storage.MemoryOverwrite | packages/sdk/src/storage.ts:9-19 | a second save of a name overwrites the first and does not list the name twice |
| Storage.Resolve | packages/sdk/src/storage.ts:42 | a resolved path has no empty, '.' or '..' segments |
| Storage.ValidNameStaysInside | packages/sdk/src/storage.ts:39-45 | for an accepted name the key file resolves to the key directory plus `<name>.jwk`, and the containment check passes exactly when the directory is not the root |
| Storage.ContainedIsDeeper | packages/sdk/src/storage.ts:42-45 | the containment check only admits paths strictly below the key directory |
| Storage.ParentTraversalRefused | packages/sdk/src/storage.ts:39-45 | a name of the form "../<valid>" would fail the containment check |
| Storage.FsSave | packages/sdk/src/storage.ts:32-49 | an invalid name fails with 'Invalid username format' touching nothing; otherwise the save succeeds exactly when the directory is not the root, and then writes `<name>.jwk` |
| Storage.FsLoad | packages/sdk/src/storage.ts:51-75 | an invalid name fails with 'Invalid username format' and any name under the root directory with 'Invalid key path'; otherwise a key is found exactly when `<name>.jwk` exists as a key file, and it is that file's key; a missing file gives null |
| Storage.FsList | packages/sdk/src/storage.ts:77-84 | an unreadable directory lists nothing; otherwise the names are exactly the `.jwk` files with the first ".jwk" removed |
| Storage.StripKeyFiles | packages/sdk/src/storage.ts:80 | keeps exactly the names ending in ".jwk", with the first ".jwk" removed |
| Storage.FsSavePreservesWellFormed | packages/sdk/src/storage.ts:32-49 | a directory holding only files written by save still does after a save |
| Storage.StripWrittenFile | packages/sdk/src/storage.ts:80 | removing ".jwk" from a written file name gives the user's name back |
| Storage.FsListOfWellFormed | packages/sdk/src/storage.ts:77-84 | the listing of a well-formed directory is exactly the set of saved names |
| Storage.Save | packages/sdk/src/storage.ts:6-49 | after a successful save the name loads the key; other names load as before; a failed save changes nothing any name loads; the memory backend never fails |
| Storage.MemoryAcceptsAnyName | packages/sdk/src/storage.ts:9-11 | the memory backend stores a name the filesystem backend refuses |
| OAuth.ClientId | packages/sdk/src/oauth.ts:4 | the caller's client id wins, then `AGENTCRED_CLIENT_ID`, then the built-in id |
| OAuth.RequestDeviceCode | packages/sdk/src/oauth.ts:6-17 | the request body is `client_id=<id>`; a non-ok reply fails with 'Failed to request device code'; success returns the parsed body |
| OAuth.TimerDelay | packages/sdk/src/oauth.ts:88-90 | the delay actually waited is between 1 ms and 2^31 - 1 ms, and equals the request inside that range |
| OAuth.ErrorMessage | packages/sdk/src/oauth.ts:49-62 | only `authorization_pending` and `slow_down` continue the loop; every other code ends it |
| OAuth.Classify | packages/sdk/src/oauth.ts:45-68 | a failed request passes its error on; a non-ok reply is 'Failed to poll for access token'; an unreadable body is a JSON error; an absent or empty `error` grants the reply's token and type; a truthy `error` continues exactly for the two waiting codes (`slow_down` adding 5 s) and otherwise fails with `ErrorMessage` |
| OAuth.Poll | packages/sdk/src/oauth.ts:19-70 | past `expires_in` the result is 'Device code expired' with no wait; the first wait is the initial interval and no wait is shorter |
| OAuth.PollReadsOnlyItsBody | packages/sdk/src/oauth.ts:37-47 | two token endpoints that answer the body the loop sends alike give the same outcome: answers to any other device code or client id are never read |
| OAuth.WaitsCountSlowDowns | packages/sdk/src/oauth.ts:53-55 | the k-th wait is the initial interval plus 5 s per `slow_down` answered before it |
| OAuth.WaitsNeverDecrease | packages/sdk/src/oauth.ts:27-55 | successive waits never decrease |
| OAuth.PollEndsBeforeScriptRunsOut | packages/sdk/src/oauth.ts:29-33 | a reply script as long as the expiry window in ms is never exhausted: the loop ends with a grant or a failure |
| OAuth.PollLoop | packages/sdk/src/oauth.ts:19-69 | the imperative loop (resolve the client id, then check the clock, sleep, ask with `client_id`, `device_code` and the device-code grant type, continue or return) computes `Poll` for that request body |
| OAuth.ExpiredTokenCode | packages/sdk/src/oauth.ts:56-57 | `expired_token` ends with 'Device code expired' |
| OAuth.AccessDeniedCode | packages/sdk/src/oauth.ts:58-59 | `access_denied` ends with 'User denied authorization' |
| OAuth.OtherErrorCode | packages/sdk/src/oauth.ts:60-61 | any other non-empty code ends with 'OAuth error: ' and the code |
| OAuth.ContinuingErrorCodes | packages/sdk/src/oauth.ts:51-55 | `authorization_pending` continues with the same interval, `slow_down` with 5 s more |
| OAuth.EmptyErrorIsGrant | packages/sdk/src/oauth.ts:49-68 | an empty `error` member is no error: the loop returns the (possibly absent) token |
| OAuth.PendingThenGranted | packages/sdk/src/oauth.ts:29-68 | a pending reply then a grant: two waits of the initial interval and the granted token |
| OAuth.PendingUntilExpired | packages/sdk/src/oauth.ts:29-33 | with a 3 s code and a 1 s interval, the fourth clock check reports expiry |
| OAuth.StartDeviceFlow | packages/sdk/src/oauth.ts:72-86 | a failed code request is the flow's failure; otherwise the user code is shown (by the callback when given), the browser is tried, every token request carries the issued device code and the client id the code was requested with, and the flow returns the access token exactly when polling grants one, and rejects with polling's own message ('Device code expired', 'User denied authorization', 'OAuth error: …') when polling fails |
| OAuth.FlowPollsWithIssuedCode | packages/sdk/src/oauth.ts:72-86 | a token endpoint that grants only the issued device code under the requesting client id gives the flow its token |
| OAuth.FlowReadsOnlyIssuedCode | packages/sdk/src/oauth.ts:72-86 | the flow's outcome depends on the token endpoint only through its answers to the request for the issued device code |
| SignHtml.EscapeHtmlOneChar | packages/sdk/src/sign-html.ts:9-16 | each special character becomes its entity and every other character stays |
| SignHtml.EscapeHtmlIsPerCharacter | packages/sdk/src/sign-html.ts:9-16 | the five global replacements, '&' first, equal the per-character escaper: nothing is escaped twice |
| SignHtml.EscapedHasNoMarkup | packages/sdk/src/sign-html.ts:9-16 | escaped text contains no '<', '>', '"' or "'" |
| SignHtml.EscapedAmpersandsStartEntities | packages/sdk/src/sign-html.ts:9-16 | every '&' in escaped text begins one of the five entities |
| SignHtml.UnescapeEscape | packages/sdk/src/sign-html.ts:9-16 | reading entities back inverts `escapeHTML` |
| SignHtml.ClassAttr | packages/sdk/src/sign-html.ts:26 | a truthy class name gives ` class="<escaped>"`; an empty or absent one gives nothing |
| SignHtml.SignWithHtml | packages/sdk/src/sign-html.ts:18-32 | `signWithHTML` succeeds exactly when `sign` does |
| SignHtml.OpenTagPieces | packages/sdk/src/sign-html.ts:31 | the opening tag contains no '>' and its last quoted value is the base64 metadata |
| SignHtml.ReadElement | packages/sdk/src/sign-html.ts:31 | any element the builder makes reads back as its metadata and content |
| SignHtml.ReadSignedHtml | packages/sdk/src/sign-html.ts:18-32 | the element gives back the base64 of the credential JSON and the content exactly; the attribute decodes to the envelope's credential with the resolved agent |
| SignHtml.ClassAttributeIffClassName | packages/sdk/src/sign-html.ts:26 | the element has a class attribute exactly when the class name is non-empty |
| Registry.ConstantTimeEqual | packages/api/src/index.ts:93-100 | returns true exactly when the two strings are equal |
| Registry.AccumulateStep | packages/api/src/index.ts:96-98 | after each round the accumulator is 0 exactly while the compared code-unit prefixes agree |
| Registry.Minute | packages/api/src/index.ts:53 | the minute bucket m satisfies 60000·m ≤ now < 60000·(m+1) |
| Registry.CheckRateLimit | packages/api/src/index.ts:47-64 | allowed exactly when the bucket's count is below the limit; then the count goes up by one and nothing else changes; a refusal changes nothing; key records are never touched |
| Registry.BurstAllowsUpToLimit | packages/api/src/index.ts:47-64 | n requests in one minute from one client to one endpoint get min(n, room left) through |
| Registry.DecimalInjective | packages/api/src/index.ts:54 | different minute numbers are written differently |
| Registry.RateKeyInjective | packages/api/src/index.ts:54 | distinct (client, endpoint, minute) buckets have distinct keys, even when the client address contains ':' |
| Registry.BucketsIndependent | packages/api/src/index.ts:47-64 | a request leaves every other client's, endpoint's and minute's counter unchanged |
| Registry.ClientIp | packages/api/src/index.ts:130 | `cf-connecting-ip`, else `x-forwarded-for`, else 'unknown'; an empty header counts as missing |
| Registry.ParseJwk | packages/api/src/index.ts:19-25 | an accepted key is OKP/Ed25519, has `use`/`alg` absent or 'sig'/'EdDSA', and carries no private scalar: every other member is dropped |
| Registry.JwkSchemaRoundTrip | packages/api/src/index.ts:19-25 | the schema accepts the JSON of a schema-shaped key and gives it back without its private scalar |
| Registry.JwkSchemaIdempotent | packages/api/src/index.ts:19-25 | what the schema accepts is schema-shaped, and accepting it again changes nothing |
| Registry.SdkRegistrationAccepted | packages/api/src/index.ts:27-29 | the SDK's `{ public_key }` registration body passes the schema unchanged |
| Registry.ParseEnvelopeJson | packages/api/src/index.ts:31-39 | an accepted body is an object with `agentcred` and `content` members, and its string `content` is the envelope's content |
| Registry.EnvelopeBodiesAccepted | packages/api/src/index.ts:217-226 | both body shapes, the bare envelope and `{ envelope }`, carry the envelope through the schema |
| Registry.PostKeys | packages/api/src/index.ts:129-176 | 429, then 401 for no bearer or a bad token, then 400 for no JSON or a bad schema; a request passing all five checks gets 201, which stores and returns the key under the login with its time; other users are untouched; a failure stores nothing; records stay well-formed |
| Registry.RegistrationSparesOtherBuckets | packages/api/src/index.ts:129-131 | a registration request never increases the lookup or verification counters |
| Registry.RecordKeyInjective | packages/api/src/index.ts:166 | different logins are stored under different `key:` entries |
| Registry.GetKey | packages/api/src/index.ts:178-201 | 429, then 400 for a name the pattern refuses, then 404 without a record; otherwise 200 with the stored login, key and time |
| Registry.MalformedNameIgnoresRecords | packages/api/src/index.ts:185-189 | a malformed name is refused before the store is read: stores with the same counters answer alike |
| Registry.RegisterThenLookup | packages/api/src/index.ts:159-200 | after a 201 registration the lookup serves the login, the accepted key and the registration time |
| Registry.ImportStored | packages/api/src/index.ts:248-251 | importing the stored key with kty and crv forced always yields the stored `x` |
| Registry.CheckClaims | packages/api/src/index.ts:269-295 | accepted exactly when the issuer matches, `content_hash` equals `sha256:` plus the digest, `iat` is within a day and renderable; every refusal is a 400 |
| Registry.CheckToken | packages/api/src/index.ts:247-298 | a token that does not verify under the stored key, or whose payload does not parse, is refused with 'Verification failed'; a non-EdDSA header with 'Invalid algorithm'; otherwise the answer is exactly `CheckClaims` of the parsed claims; every refusal is a 400 |
| Registry.CheckEnvelope | packages/api/src/index.ts:210-298 | a missing JSON body is 400 'Invalid JSON body'; a body the schema refuses is 400 'Invalid envelope format'; an envelope whose user has no record is 404 'No registered key for user: ' plus the user; otherwise the answer is `CheckToken` under that record; acceptance implies passing issuer, hash and window checks |
| Registry.SignedTokenChecked | packages/api/src/index.ts:247-267 | under a record holding the signer's key, the signed token always passes import, verification, the algorithm check and parsing |
| Registry.EnvelopeReachesToken | packages/api/src/index.ts:217-245 | the JSON of an envelope whose user has a record reaches the token checks with that record |
| Registry.PostVerifyAsWritten | packages/api/src/index.ts:203-299 | the handler as written: the counter update of the rate limit; 429 'Rate limit exceeded' at the limit; on 200 the checks accepted and the reported agent is the envelope's unsigned `agent` member |
| Registry.PostVerify | packages/api/src/index.ts:203-299 | the corrected half of the finding at index.ts:293 (the handler with line 293 reporting the signed subject): the counter update of the rate limit; 429 'Rate limit exceeded' at the limit; the status is 200, 400, 404 or 429; a 200 reports the record's login and id, the signed subject and `iat` |
| Registry.CheckEnvelopeReadsOnlyRecords | packages/api/src/index.ts:237 | the checks depend on the store only through the key records |
| Registry.VerifyAnswers | packages/api/src/index.ts:226-298 | below the limit, a refusal is returned as is and an acceptance as 200 with the record's login and id; the handler as written differs only in the agent it reports |
| Registry.SignedEnvelopeChecked | packages/api/src/index.ts:226-295 | an envelope signed under a user's registered key is accepted exactly within a day of signing, with the signed claims; otherwise 'Signature expired or timestamp out of range' |
| Registry.SignedEnvelopeVerified | packages/api/src/index.ts:203-295 | below the limit, such an envelope gets 200 with the registered login and id, the signed agent and the signing second |
| Registry.RegisterThenVerify | packages/api/src/index.ts:129-295 | after the SDK's register request for a key is accepted, an envelope signed with that key verifies with the login, id, signed agent and signing second |
| Registry.IssuerCheckedBeforeHash | packages/api/src/index.ts:269-278 | with both the user and the content changed, the issuer mismatch is reported |
| Registry.TamperedContentRefused | packages/api/src/index.ts:274-278 | content with another digest is refused with 'Content hash mismatch - content was tampered' |
| Registry.ForgedAgentChecked | packages/api/src/index.ts:226-285 | rewriting the envelope's `agent` leaves the checks accepting with the signed claims unchanged |
| Registry.TokenIgnoresAgent | packages/api/src/index.ts:247-285 | the token and claim checks give the same answer for an envelope whose `agent` member is rewritten |
| Registry.AgentNotChecked | packages/api/src/index.ts:226-285 | rewriting the envelope's `agent` member changes neither a refusal nor the record and claims of an acceptance |
| Registry.ForgedAgentReported | packages/api/src/index.ts:287-295 | for any envelope the registry accepts, the handler as written answers the same envelope with a rewritten `agent` with 200 and the forged name |
| Registry.ReportedAgentIsSigned | packages/api/src/index.ts:287-295 | for any envelope the registry accepts, the corrected handler answers it and its copy with a rewritten `agent` alike: 200 with the stored login and id, the signed `sub` and the signed `iat` |
| Vercel.CreateMiddleware | packages/vercel/src/index.ts:32-42 | an empty user or missing key throws; the agent defaults to 'vercel-ai'; signing is off only for an explicit `signOutputs: false` |
| Vercel.WrapGenerate | packages/vercel/src/index.ts:45-52 | the result is unchanged when signing is off or the text is empty; it fails only when signing with a non-Ed25519 key; other members are kept |
| Vercel.GenerateRoundTrip | packages/vercel/src/index.ts:48-51 | the new text parses as an envelope of the original text by the configured user and agent |
| Vercel.ExtractDelta | packages/vercel/src/index.ts:25-30 | non-text-delta chunks give ''; a string `textDelta` (even empty) wins over a string `delta` |
| Vercel.CollectedAppend | packages/vercel/src/index.ts:61-66 | text is collected chunk by chunk in order |
| Vercel.Transform | packages/vercel/src/index.ts:60-78 | every chunk is forwarded in order; exactly one chunk is appended when the stream ends normally with non-empty text and an Ed25519 key, and that chunk ends the output normally; a failed signature errors the output with the signing error after the forwarded chunks; an input error passes through |
| Vercel.PipeThrough | packages/vercel/src/index.ts:59-80 | running `transform` on each chunk and then `flush` computes `Transform` |
| Vercel.WrapStream | packages/vercel/src/index.ts:53-81 | without signing the result is unchanged; other members are kept and the original chunks come first |
| Vercel.StreamRoundTrip | packages/vercel/src/index.ts:67-77 | the appended chunk carries the marker plus an envelope JSON in both members; the envelope parses back, with the collected text as content and the configured agent |
| Vercel.CollectsBothDeltaMembers | packages/vercel/src/index.ts:25-30 | a `delta` "Hello" and a `textDelta` " world" collect "Hello world" |
| Mastra.MakeSignedTool | packages/mastra/src/index.ts:29-41 | throws exactly without a user or key; keeps the tool; the agent defaults to the tool id |
| Mastra.ContentOf | packages/mastra/src/index.ts:45 | a string result is signed as is; anything else as its JSON |
| Mastra.Execute | packages/mastra/src/index.ts:42-51 | a rejection of the original passes through; with a key that cannot sign, the original result comes back; otherwise an envelope of the content by the user and agent |
| Mastra.SignedOutputVerifies | packages/mastra/src/index.ts:42-50 | a wrapped tool's output verifies under the signer's key within a day, naming the configured agent or the tool id; a string result is recovered verbatim |
| Mastra.CreateTools | packages/mastra/src/index.ts:59-65 | throws exactly without a user or key; the agent defaults to 'agentcred' |
| Mastra.SignToolOptions | packages/mastra/src/index.ts:72 | a truthy input agent replaces the configured one, otherwise the options are unchanged |
| Mastra.SignTool | packages/mastra/src/index.ts:71-74 | signs the input content by the configured user, with the input agent when truthy |
| Mastra.VerifyTool | packages/mastra/src/index.ts:79-84 | an object input is verified directly, and so is a text that reads as an envelope; a text rejects the promise exactly when it is not JSON; JSON that is not an envelope resolves as not verified |
| Mastra.VerifyToolAcceptsText | packages/mastra/src/index.ts:80-83 | an envelope and its JSON text verify alike |
| Mastra.SignThenVerifyTool | packages/mastra/src/index.ts:68-85 | what the sign tool produces, the verify tool accepts once the registry serves the signer's key |

## Left out

- Cryptography, JSON text, base64 and SHA-256 are foreign code. They are
  parameters constrained by `Primitives.Sound`, with no collision
  resistance.
- Key generation (`generateKeyPair`) and `randomUUID` are outside the
  model. Their outputs are parameters.
- The KV store's non-atomic read-modify-write, and the 60-second TTL of the
  counters, are outside the model. Requests are handled one at a time, and
  an old minute's counter stays but is never read again.
- The registry's CORS middleware and its `/` and `/v1/health` routes are
  left out. They hold no logic.
- `verifyGitHubToken` in the registry, and the profile request in
  `createIdentity`, are oracles from token to user. The fetch, the headers
  and the exception path appear only as the oracle returning nothing.
- Zod's error details are left out, and so is the number type of
  `github_id`. Only acceptance and the parsed value are modelled.
- Jose.ImportPublicJwk: does not model `importJWK` rejecting an `x` that
  is not 32 bytes of base64url. Such a key is accepted here, and fails
  later at `compactVerify` with the signature error instead of the import
  error.
- Jose.ImportPrivateJwk: does not model `importJWK` rejecting a `d` or `x`
  that is not 32 bytes of base64url. `loadIdentity` would then reject with
  the import error, while the model loads the key.
- Verifier.Verify: an unsupported key type fails the import with the
  placeholder message 'Unsupported JWK'; `jose`'s own wording of that
  error is not modelled.
- Mastra.VerifyTool: JSON that is not an envelope always resolves as not
  verified with one placeholder message, the `TypeError` for a missing
  `agentcred`. In the source, JSON whose `agentcred.github` is present but
  whose other members are malformed first asks the registry, and then
  fails with another message.
- Registry.ImportStored: always succeeds. This does not model `importJWK`
  rejecting an `x` that is not 32 bytes of base64url. Such a key then fails
  at `compactVerify` with the same 'Verification failed'.
- `JSON.stringify(undefined)` in the Mastra wrapper is outside the model.
  Tool results are JSON values.
- `content_hash` claims that are not strings are outside the model. In the
  SDK they make `replace` throw, which the catch reports. Claims are typed
  records.
- Registry.Xor, Registry.Or: these are bitwise on naturals. They model
  JavaScript's 32-bit operators only for code units below 2^16, which are
  the only values `charCodeAt` returns.
- The console output and `execSync` of the device flow are left out:
  - the browser attempt is an event, and its failure is swallowed as in
    the source;
  - the printed prompt is an event, not its text.
- File permissions (`mode: 0o600/0o700`) and `fs.mkdir` failures are left
  out. The filesystem is a map from file names to contents, plus a flag
  for whether the directory exists.
- `createDefaultStorage`'s `typeof window` test is left out. The caller
  chooses the backend.
- Lone UTF-16 surrogates cannot appear in Dafny strings. The model counts
  `.length` in code units, but strings are sequences of scalar values.

## Findings

| source | as written | input that shows it | evidently intended | confidence | as-written member | corrected member |
|---|---|---|---|---|---|---|
| packages/api/src/index.ts:293 | `POST /v1/verify` reports `envelope.agentcred.agent`, a member the signature does not cover | a validly signed envelope whose `agent` member is rewritten to any other name | report the signed `sub` claim, as the SDK's `verifyOffline` does (packages/sdk/src/verify.ts:60) | not executed | Registry.ForgedAgentReported | Registry.ReportedAgentIsSigned |
