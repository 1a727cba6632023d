/** Identity orchestration (packages/sdk/src/identity.ts): creating an
    identity (GitHub profile, key generation, registration, storage),
    loading one back, and resolving a user's public key from the registry.

    The network is a record of reply functions whose arguments are the
    requests the code makes, so a lemma can say what was sent. The freshly
    generated key pair is given by its private scalar, and the clock reading
    behind `registeredAt` of a loaded identity is a parameter (its ISO
    rendering is abstracted to a string). */
module Identity {
  import opened Wrappers
  import opened Types
  import opened Primitives
  import opened Jose
  import Storage

  const DefaultApiUrl := "https://api.agentcred.dev"
  const GithubUserUrl := "https://api.github.com/user"
  const GithubAuthFailed := "GitHub authentication failed"
  const RegistrationFailed := "Key registration failed"

  /** The fields of GitHub's `/user` response the code reads. */
  datatype Profile = Profile(login: string, id: int, avatarUrl: string)

  /** The registry's reply to `POST /v1/keys`, as far as it is read. */
  datatype Registration = Registration(registeredAt: string)

  /** A request the SDK sends. */
  datatype Request =
    | GetProfile(url: string, bearer: string)
    | PostKey(url: string, bearer: string, publicKey: Jwk)
    | GetKey(url: string)

  /** The replies the network gives to each kind of request. */
  datatype Network = Network(
    profile: string -> Reply<Profile>,
    register: (string, string, Jwk) -> Reply<Registration>,
    lookup: string -> Reply<KeyRecord>)

  /** `config?.apiUrl ?? process.env.AGENTCRED_API_URL ?? default`. */
  function ApiUrl(configured: Option<string>, environment: Option<string>): (r: string)
    ensures configured.Some? ==> r == configured.value
    ensures configured.None? && environment.Some? ==> r == environment.value
    ensures configured.None? && environment.None? ==> r == DefaultApiUrl
  {
    configured.GetOr(environment.GetOr(DefaultApiUrl))
  }

  /** The hex SHA-256 of the serialised public JWK. */
  function Fingerprint(p: Primitives, publicJwk: Jwk): (r: string)
    requires Sound(p)
    ensures IsLowerHex(r)
  {
    p.sha256Hex(p.jwkJson(publicJwk))
  }

  function KeyUrl(apiUrl: string, username: string): string
  {
    apiUrl + "/v1/keys/" + username
  }

  /** `resolvePublicKey`: the `public_key` member of an ok reply, and null on
      a non-ok reply, a failed request or an unreadable body. */
  function ResolvePublicKey(net: Network, apiUrl: string, username: string): (r: Option<Jwk>)
    ensures r.Some? <==>
      var reply := net.lookup(KeyUrl(apiUrl, username));
      reply.Reply? && reply.ok && reply.body.Some? && reply.body.value.publicKey.Some?
    ensures r.Some? ==> r == net.lookup(KeyUrl(apiUrl, username)).body.value.publicKey
  {
    match net.lookup(KeyUrl(apiUrl, username))
    case NetworkError(_) => None
    case Reply(ok, body) =>
      if !ok then None
      else match body
        case None => None
        case Some(record) => record.publicKey
  }

  /** What `createIdentity` leaves behind: its result, the storage after it,
      and the requests it sent, in order. */
  datatype CreateOutcome = CreateOutcome(result: Result<Identity>, storage: Storage.KeyStorage,
                                         requests: seq<Request>)

  /** `createIdentity(token, config)` with the freshly generated private
      scalar `d`. */
  function CreateIdentity(p: Primitives, net: Network, apiUrl: string, token: string,
                          storage: Storage.KeyStorage, d: string): (r: CreateOutcome)
    requires Storage.StorageValid(storage)
    ensures Storage.StorageValid(r.storage)
    ensures |r.requests| >= 1 && r.requests[0] == GetProfile(GithubUserUrl, token)
    // the private scalar never leaves the machine
    ensures forall k :: 0 <= k < |r.requests| && r.requests[k].PostKey? ==> r.requests[k].publicKey.d.None?
  {
    var first := GetProfile(GithubUserUrl, token);
    match net.profile(token)
    case NetworkError(m) => CreateOutcome(Failure(m), storage, [first])
    case Reply(ok, body) =>
      if !ok then CreateOutcome(Failure(GithubAuthFailed), storage, [first])
      else if body.None? then CreateOutcome(Failure(JsonParseError), storage, [first])
      else
        var profile := body.value;
        var publicJwk := PublicJwk(p.publicOf(d));
        var privateJwk := PrivateJwk(p.publicOf(d), d);
        var fingerprint := p.sha256Hex(p.jwkJson(publicJwk));
        var url := apiUrl + "/v1/keys";
        var sent := [first, PostKey(url, token, publicJwk)];
        match net.register(url, token, publicJwk)
        case NetworkError(m) => CreateOutcome(Failure(m), storage, sent)
        case Reply(ok2, body2) =>
          if !ok2 then CreateOutcome(Failure(RegistrationFailed), storage, sent)
          else if body2.None? then CreateOutcome(Failure(JsonParseError), storage, sent)
          else
            var (saved, storage') := Storage.Save(storage, profile.login, privateJwk);
            if saved.Failure? then CreateOutcome(Failure(saved.error), storage', sent)
            else
              CreateOutcome(
                Success(Identity(GithubInfo(profile.login, profile.id, profile.avatarUrl),
                                 publicJwk, fingerprint, body2.value.registeredAt)),
                storage', sent)
  }

  /** A rejected GitHub profile request fails before anything is registered
      or stored. */
  lemma CreateFailsOnGithub(p: Primitives, net: Network, apiUrl: string, token: string,
                            storage: Storage.KeyStorage, d: string)
    requires Storage.StorageValid(storage)
    requires net.profile(token).Reply? && !net.profile(token).ok
    ensures CreateIdentity(p, net, apiUrl, token, storage, d)
         == CreateOutcome(Failure(GithubAuthFailed), storage, [GetProfile(GithubUserUrl, token)])
  {
  }

  /** A rejected registration fails with storage unchanged: saving comes
      after it. */
  lemma CreateFailsOnRegistration(p: Primitives, net: Network, apiUrl: string, token: string,
                                  storage: Storage.KeyStorage, d: string)
    requires Storage.StorageValid(storage)
    requires net.profile(token).Reply? && net.profile(token).ok && net.profile(token).body.Some?
    requires net.register(apiUrl + "/v1/keys", token, PublicJwk(p.publicOf(d))).Reply?
    requires !net.register(apiUrl + "/v1/keys", token, PublicJwk(p.publicOf(d))).ok
    ensures CreateIdentity(p, net, apiUrl, token, storage, d).result == Failure(RegistrationFailed)
    ensures CreateIdentity(p, net, apiUrl, token, storage, d).storage == storage
  {
  }

  /** On success the identity carries the profile, the generated public key,
      its fingerprint and the registry's timestamp; the private key is stored
      under the login and can be loaded back. */
  lemma CreateSucceeds(p: Primitives, net: Network, apiUrl: string, token: string,
                       storage: Storage.KeyStorage, d: string)
    requires Sound(p)
    requires Storage.StorageValid(storage)
    requires CreateIdentity(p, net, apiUrl, token, storage, d).result.Success?
    ensures var out := CreateIdentity(p, net, apiUrl, token, storage, d);
      var profile := net.profile(token).body.value;
      var id := out.result.value;
      && id.github == GithubInfo(profile.login, profile.id, profile.avatarUrl)
      && id.publicKey == PublicJwk(p.publicOf(d))
      && id.fingerprint == Fingerprint(p, id.publicKey)
      && id.registeredAt == net.register(apiUrl + "/v1/keys", token, id.publicKey).body.value.registeredAt
      && Storage.Load(out.storage, profile.login) == Success(Some(PrivateJwk(p.publicOf(d), d)))
      && (forall other :: other != profile.login ==> Storage.Load(out.storage, other) == Storage.Load(storage, other))
      && out.requests == [GetProfile(GithubUserUrl, token), PostKey(apiUrl + "/v1/keys", token, id.publicKey)]
  {
  }

  /** A loaded identity and the key object to sign with. */
  datatype Loaded = Loaded(identity: Identity, privateKey: SigningKey)

  /** What `loadIdentity` gives back: its result (`Success(None)` for null)
      and the requests it sent. */
  datatype LoadOutcome = LoadOutcome(result: Result<Option<Loaded>>, requests: seq<Request>)

  /** `loadIdentity(username, config)` at the time rendered as `now`. */
  function LoadIdentity(p: Primitives, net: Network, apiUrl: string, storage: Storage.KeyStorage,
                        username: string, now: string): (r: LoadOutcome)
    // a storage error propagates before the registry is asked
    ensures Storage.Load(storage, username).Failure? ==>
      r == LoadOutcome(Failure(Storage.Load(storage, username).error), [])
    // a loaded identity exists exactly when a key is stored, the registry
    // serves one and the stored key imports
    ensures r.result.Success? && r.result.value.Some? <==>
      && Storage.Load(storage, username).Success? && Storage.Load(storage, username).value.Some?
      && ResolvePublicKey(net, apiUrl, username).Some?
      && ImportPrivateJwk(Storage.Load(storage, username).value.value).Success?
    ensures r.result.Success? && r.result.value.Some? ==>
      var loaded := r.result.value.value;
      && loaded.identity.github == GithubInfo(username, 0, "")
      && loaded.identity.publicKey == ResolvePublicKey(net, apiUrl, username).value
      && loaded.identity.fingerprint == p.sha256Hex(p.jwkJson(loaded.identity.publicKey))
      && loaded.identity.registeredAt == now
      && Success(loaded.privateKey) == ImportPrivateJwk(Storage.Load(storage, username).value.value)
      && r.requests == [GetKey(KeyUrl(apiUrl, username))]
    // a stored key that fails to import rejects the load with the import
    // error, after the registry was asked
    ensures var stored := Storage.Load(storage, username);
      stored.Success? && stored.value.Some? && ResolvePublicKey(net, apiUrl, username).Some?
      && ImportPrivateJwk(stored.value.value).Failure? ==>
        r == LoadOutcome(Failure(ImportPrivateJwk(stored.value.value).error), [GetKey(KeyUrl(apiUrl, username))])
  {
    match Storage.Load(storage, username)
    case Failure(e) => LoadOutcome(Failure(e), [])
    case Success(stored) =>
      if stored.None? then LoadOutcome(Success(None), [])
      else
        var sent := [GetKey(KeyUrl(apiUrl, username))];
        match ResolvePublicKey(net, apiUrl, username)
        case None => LoadOutcome(Success(None), sent)
        case Some(publicJwk) =>
          match ImportPrivateJwk(stored.value)
          case Failure(e) => LoadOutcome(Failure(e), sent)
          case Success(key) =>
            var fingerprint := p.sha256Hex(p.jwkJson(publicJwk));
            LoadOutcome(
              Success(Some(Loaded(Identity(GithubInfo(username, 0, ""), publicJwk, fingerprint, now), key))),
              sent)
  }

  /** With no stored key the result is null and the registry is not asked. */
  lemma LoadWithoutStoredKey(p: Primitives, net: Network, apiUrl: string, storage: Storage.KeyStorage,
                             username: string, now: string)
    requires Storage.Load(storage, username) == Success(None)
    ensures LoadIdentity(p, net, apiUrl, storage, username, now) == LoadOutcome(Success(None), [])
  {
  }

  /** With a stored key but no key from the registry the result is null. */
  lemma LoadWithoutRegistryKey(p: Primitives, net: Network, apiUrl: string, storage: Storage.KeyStorage,
                               username: string, now: string)
    requires Storage.Load(storage, username).Success? && Storage.Load(storage, username).value.Some?
    requires ResolvePublicKey(net, apiUrl, username).None?
    ensures LoadIdentity(p, net, apiUrl, storage, username, now).result == Success(None)
  {
  }

  /** Loading after creating: when the registry serves back the key that was
      registered, the loaded identity has the same public key and fingerprint
      as the created one, and its signing key is the generated scalar. */
  lemma LoadAfterCreate(p: Primitives, net: Network, apiUrl: string, token: string,
                        storage: Storage.KeyStorage, d: string, now: string)
    requires Sound(p)
    requires Storage.StorageValid(storage)
    requires CreateIdentity(p, net, apiUrl, token, storage, d).result.Success?
    requires var login := net.profile(token).body.value.login;
      ResolvePublicKey(net, apiUrl, login) == Some(PublicJwk(p.publicOf(d)))
    ensures var out := CreateIdentity(p, net, apiUrl, token, storage, d);
      var login := net.profile(token).body.value.login;
      var loaded := LoadIdentity(p, net, apiUrl, out.storage, login, now).result;
      && loaded.Success? && loaded.value.Some?
      && loaded.value.value.identity.publicKey == out.result.value.publicKey
      && loaded.value.value.identity.fingerprint == out.result.value.fingerprint
      && loaded.value.value.privateKey == Ed25519Private(d)
  {
    CreateSucceeds(p, net, apiUrl, token, storage, d);
  }
}
