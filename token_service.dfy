/** `TokenService`: exchanging an external token for a signed internal token. */
module TokenService {
  import opened Base
  import opened ExternalModels
  import opened ExternalValidation
  import opened IdentityValidatorProvider
  import opened InternalTokenV1
  import PolicyRepository

  const ValidationFailurePrefix := "Failed to validate user token against provider with name "

  /** The error for a failed validation: it names the provider, then carries the validator's error. */
  function ValidationFailure(providerName: string, err: string): (msg: string)
    ensures |ValidationFailurePrefix| + |providerName| <= |msg|
    ensures msg[..|ValidationFailurePrefix|] == ValidationFailurePrefix
    ensures msg[|ValidationFailurePrefix|..|ValidationFailurePrefix| + |providerName|] == providerName
  {
    ValidationFailurePrefix + providerName + ": " + err
  }

  /** An HMAC-SHA-256 key, opaque to this model. */
  datatype HmacKey = HmacKey(material: seq<byte>)

  /**
   * The foreign calls of issuance: the claim encoders, HMAC key construction, JWT signing
   * (HS256), and the clock reading in nanoseconds relative to the Unix epoch.
   */
  datatype Environment = Environment(
    encoders: Encoders,
    newKey: seq<byte> -> Result<HmacKey>,
    sign: (Claims, HmacKey) -> Result<string>,
    nowNanos: int)

  /**
   * The service's collaborators, all read-only after construction: the shared validator
   * registry, a policy repository (any implementation of `get_policy`) and the signing secret.
   */
  datatype TokenService = TokenService(
    validators: ExternalIdentityValidationService,
    policyRepository: ExternalIdentity -> Result<string>,
    signSecret: seq<byte>)

  /** The internal token `generate_token` builds for `identity` from its policy text. */
  function TokenFor(identity: ExternalIdentity, policy: string): (t: InternalToken)
    ensures t.version == "v1"
    ensures t.policy.content == policy
    ensures t.metadata.userId == identity.userId
    ensures t.metadata.identityProvider.name == identity.identityProvider
  {
    NewInternalToken(Policy(policy), identity.userId, identity.identityProvider)
  }

  /**
   * `generate_token`: policy lookup, internal token, claims, HMAC key, signature; the first
   * failure is the result.
   */
  function GenerateToken(svc: TokenService, env: Environment, identity: ExternalIdentity): (r: Result<string>)
    ensures svc.policyRepository(identity).Err? ==> r == Err(svc.policyRepository(identity).error)
    ensures r.Ok? ==>
              && svc.policyRepository(identity).Ok?
              && var claims := ClaimsOf(TokenFor(identity, svc.policyRepository(identity).value), env.encoders, env.nowNanos);
              && claims.Ok?
              && env.newKey(svc.signSecret).Ok?
              && env.sign(claims.value, env.newKey(svc.signSecret).value) == r
  {
    var policy :- svc.policyRepository(identity);
    var token := TokenFor(identity, policy);
    var claims :- ClaimsOf(token, env.encoders, env.nowNanos);
    var key :- env.newKey(svc.signSecret);
    env.sign(claims, key)
  }

  /**
   * `issue_token`: registry lookup, validation, then `generate_token` on the identity.
   * A lookup failure is returned as it is; a validation failure is reported naming the provider.
   */
  function IssueToken(svc: TokenService, env: Environment, provider: ExternalIdentityProvider,
                      externalToken: ExternalToken): (r: Result<string>)
    reads svc.validators
    ensures svc.validators.Get(provider).Err? ==> r == Err(NotFound(provider))
    ensures svc.validators.Get(provider).Ok? && svc.validators.Get(provider).value.validate(externalToken.token).Err? ==>
              r == Err(ValidationFailure(provider.name, svc.validators.Get(provider).value.validate(externalToken.token).error))
    ensures svc.validators.Get(provider).Ok? && svc.validators.Get(provider).value.validate(externalToken.token).Ok? ==>
              r == GenerateToken(svc, env, svc.validators.Get(provider).value.validate(externalToken.token).value)
  {
    var validator :- svc.validators.Get(provider);
    match validator.validate(TokenInto(externalToken))
    case Ok(identity) => GenerateToken(svc, env, identity)
    case Err(err) => Err(ValidationFailure(provider.name, err))
  }

  // ---------------------------------------------------------------- properties

  /**
   * A token is signed only after every step succeeded: a validator is installed for the
   * provider, it accepted the token, the identity has a policy, the claims and key were
   * built, and the result is the signature over the claims of that identity's token.
   */
  lemma IssuedOnlyAfterValidation(svc: TokenService, env: Environment, provider: ExternalIdentityProvider,
                                  externalToken: ExternalToken)
    requires IssueToken(svc, env, provider, externalToken).Ok?
    ensures provider in svc.validators.validators
    ensures var identity := svc.validators.validators[provider].validate(externalToken.token);
            && identity.Ok?
            && svc.policyRepository(identity.value).Ok?
            && var claims := ClaimsOf(TokenFor(identity.value, svc.policyRepository(identity.value).value),
                                      env.encoders, env.nowNanos);
            && claims.Ok?
            && claims.value.private[UserIdKey] == identity.value.userId
            && claims.value.private[IdentityProviderKey] == identity.value.identityProvider
            && env.newKey(svc.signSecret).Ok?
            && env.sign(claims.value, env.newKey(svc.signSecret).value) == IssueToken(svc, env, provider, externalToken)
  {
    var identity := svc.validators.validators[provider].validate(externalToken.token);
    assert identity.Ok?;
    var r := GenerateToken(svc, env, identity.value);
    assert r.Ok?;
  }

  /** With no validator installed for the provider, issuance fails for every token. */
  lemma UnknownProviderAlwaysFails(svc: TokenService, env: Environment, provider: ExternalIdentityProvider)
    requires provider !in svc.validators.validators
    ensures forall t :: IssueToken(svc, env, provider, t) == Err(NotFound(provider))
  {
  }

  /** Claim conversion, key construction and signing failures each surface as the result. */
  lemma GenerateTokenPropagatesErrors(svc: TokenService, env: Environment, identity: ExternalIdentity)
    requires svc.policyRepository(identity).Ok?
    ensures var claims := ClaimsOf(TokenFor(identity, svc.policyRepository(identity).value), env.encoders, env.nowNanos);
            && (claims.Err? ==> GenerateToken(svc, env, identity) == Err(claims.error))
            && (claims.Ok? && env.newKey(svc.signSecret).Err? ==>
                  GenerateToken(svc, env, identity) == Err(env.newKey(svc.signSecret).error))
            && (claims.Ok? && env.newKey(svc.signSecret).Ok? ==>
                  GenerateToken(svc, env, identity) == env.sign(claims.value, env.newKey(svc.signSecret).value))
  {
  }

  /**
   * The stub validator's identities are always at provider `"google"`, and the default
   * repository knows only an identity at provider `"provider"`: wired together, issuance
   * fails with "Policy not found" for every token.
   */
  lemma StubWithDefaultRepositoryNeverIssues(svc: TokenService, env: Environment,
                                            provider: ExternalIdentityProvider, repo: PolicyRepository.InMemoryPolicyRepository,
                                            t: ExternalToken)
    requires provider in svc.validators.validators
    requires forall token :: svc.validators.validators[provider].validate(token) == StubValidate(token)
    requires repo.policies.Keys == {PolicyRepository.DummyIdentity}
    requires forall i :: svc.policyRepository(i) == repo.GetPolicy(i)
    ensures IssueToken(svc, env, provider, t) == Err(PolicyRepository.PolicyNotFound)
  {
    var identity := StubValidate(t.token).value;
    assert identity.identityProvider != PolicyRepository.DummyIdentity.identityProvider;
    assert GenerateToken(svc, env, identity) == Err(PolicyRepository.PolicyNotFound);
  }

  /**
   * End to end with the stub validator: for a repository that holds policy text for the
   * stub's identity, issuance signs claims carrying the compressed policy, the token as
   * user id, `"google"` as provider, version `"v1"` and an expiry one hour from now.
   */
  lemma StubEndToEnd(svc: TokenService, env: Environment, provider: ExternalIdentityProvider,
                     t: ExternalToken, content: string)
    requires provider in svc.validators.validators
    requires forall token :: svc.validators.validators[provider].validate(token) == StubValidate(token)
    requires svc.policyRepository(ExternalIdentity(t.token, "google")) == Ok(content)
    requires env.encoders.compress(content).Ok?
    requires env.nowNanos >= 0
    requires env.newKey(svc.signSecret).Ok?
    ensures var claims := ClaimsOf(TokenFor(ExternalIdentity(t.token, "google"), content), env.encoders, env.nowNanos);
            && claims.Ok?
            && claims.value.private[PolicyKey] == env.encoders.base64(env.encoders.compress(content).value)
            && claims.value.private[UserIdKey] == t.token
            && claims.value.private[IdentityProviderKey] == "google"
            && claims.value.private[ApiVersionKey] == "v1"
            && claims.value.registered.expiration == Some(env.nowNanos / NanosPerSecond + 3600)
            && IssueToken(svc, env, provider, t) == env.sign(claims.value, env.newKey(svc.signSecret).value)
  {
    ExpirationIsOneHourLater(env.nowNanos);
  }

  /**
   * The scenario run on objects: a fresh registry, one put of the stub under `"google"`,
   * and one issuance, which is the token generated for the stub's identity.
   */
  method IssueWithStub(env: Environment, repo: PolicyRepository.InMemoryPolicyRepository,
                       secret: seq<byte>, settings: OidcExternalIdentityProviderSettings, t: ExternalToken)
    returns (svc: TokenService, r: Result<string>)
    ensures svc.signSecret == secret
    ensures forall i :: svc.policyRepository(i) == repo.GetPolicy(i)
    ensures r == GenerateToken(svc, env, ExternalIdentity(t.token, "google"))
  {
    var registry := new ExternalIdentityValidationService();
    var provider := ProviderFrom("google");
    var _ := registry.Put(provider, settings, (s, name) => Ok(StubValidator()));
    svc := TokenService(registry, repo.GetPolicy, secret);
    r := IssueToken(svc, env, provider, t);
  }
}
