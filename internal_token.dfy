/** The version-1 internal token and its conversion to a JWT claim set. */
module InternalTokenV1 {
  import opened Base
  import opened ExternalModels

  const ApiVersionKey := "boxer.sneaksanddata.com/api-version"
  const PolicyKey := "boxer.sneaksanddata.com/policy"
  const UserIdKey := "boxer.sneaksanddata.com/user-id"
  const IdentityProviderKey := "boxer.sneaksanddata.com/identity-provider"
  const BoxerIssuer := "boxer.sneaksanddata.com"
  const BoxerAudience := "boxer.sneaksanddata.com"
  const ApiVersion := "v1"
  const TokenLifetimeSeconds := 3600
  const NanosPerSecond := 1_000_000_000
  /** The message of the clock error raised when a time lies before the Unix epoch. */
  const BeforeEpoch := "second time provided was later than self"

  /** The four private claim keys every version-1 token carries. */
  const PrivateClaimKeys: set<string> := {ApiVersionKey, PolicyKey, UserIdKey, IdentityProviderKey}

  datatype TokenMetadata = TokenMetadata(userId: string, identityProvider: ExternalIdentityProvider)

  datatype InternalToken = InternalToken(policy: Policy, metadata: TokenMetadata, version: string)

  /** `InternalToken::new`: fixes the version to `"v1"`. */
  function NewInternalToken(policy: Policy, userId: string, externalIdentityProvider: string): (t: InternalToken)
    ensures t.version == "v1"
    ensures t.policy == policy
    ensures t.metadata.userId == userId
    ensures t.metadata.identityProvider.name == externalIdentityProvider
  {
    InternalToken(policy, TokenMetadata(userId, ProviderFrom(externalIdentityProvider)), ApiVersion)
  }

  /** The registered claims of a JWT, all optional. */
  datatype RegisteredClaims = RegisteredClaims(
    issuer: Option<string>,
    subject: Option<string>,
    audience: Option<string>,
    expiration: Option<nat>,
    notBefore: Option<nat>,
    issuedAt: Option<nat>,
    jsonWebTokenId: Option<string>)

  /** A JWT claim set: registered claims plus named private claims (here all string-valued). */
  datatype Claims = Claims(registered: RegisteredClaims, private: map<string, string>)

  /** `Claims::default()`: nothing set. */
  function DefaultClaims(): (c: Claims)
    ensures c.private == map[]
    ensures c.registered.issuer.None? && c.registered.subject.None? && c.registered.audience.None?
    ensures c.registered.expiration.None? && c.registered.notBefore.None?
    ensures c.registered.issuedAt.None? && c.registered.jsonWebTokenId.None?
  {
    Claims(RegisteredClaims(None, None, None, None, None, None, None), map[])
  }

  /**
   * The encoders the conversion calls: `compress` stands for taking the UTF-8 bytes of
   * the text and zlib-compressing them (writing into the encoder and finishing it may fail), `base64` for standard base64 without wrapping.
   */
  datatype Encoders = Encoders(compress: string -> Result<seq<byte>>, base64: seq<byte> -> string)

  /**
   * The expiration in whole seconds since the epoch: the clock reading `nowNanos`
   * (nanoseconds relative to the epoch, possibly negative) plus one hour, truncated to
   * seconds; an error when that instant lies before the epoch.
   */
  function ExpirationSeconds(nowNanos: int): (r: Result<nat>)
    ensures r.Ok? <==> nowNanos + TokenLifetimeSeconds * NanosPerSecond >= 0
    ensures r.Err? ==> r.error == BeforeEpoch
    ensures r.Ok? ==> r.value * NanosPerSecond <= nowNanos + TokenLifetimeSeconds * NanosPerSecond
                                             < (r.value + 1) * NanosPerSecond
  {
    var later := nowNanos + TokenLifetimeSeconds * NanosPerSecond;
    if later < 0 then Err(BeforeEpoch) else Ok(later / NanosPerSecond)
  }

  /** For a clock at or after the epoch, the expiration is the current second plus 3600. */
  lemma ExpirationIsOneHourLater(nowNanos: int)
    requires nowNanos >= 0
    ensures ExpirationSeconds(nowNanos) == Ok(nowNanos / NanosPerSecond + 3600)
  {
    var q, m := nowNanos / NanosPerSecond, nowNanos % NanosPerSecond;
    assert nowNanos == q * NanosPerSecond + m;
    assert nowNanos + 3600 * NanosPerSecond == (q + 3600) * NanosPerSecond + m;
  }

  /**
   * The claim set of a token, stated declaratively: the compression error, then the clock
   * error, or the four private claims with fixed issuer, audience and expiration.
   */
  function ClaimsOf(token: InternalToken, enc: Encoders, nowNanos: int): (r: Result<Claims>)
    ensures enc.compress(token.policy.content).Err? ==> r == Err(enc.compress(token.policy.content).error)
    ensures enc.compress(token.policy.content).Ok? && ExpirationSeconds(nowNanos).Err? ==> r == Err(BeforeEpoch)
    ensures r.Ok? <==> enc.compress(token.policy.content).Ok? && ExpirationSeconds(nowNanos).Ok?
    ensures r.Ok? ==> r.value.private.Keys == PrivateClaimKeys
    ensures r.Ok? ==> r.value.private[ApiVersionKey] == token.version
    ensures r.Ok? ==> r.value.private[PolicyKey] == enc.base64(enc.compress(token.policy.content).value)
    ensures r.Ok? ==> r.value.private[UserIdKey] == token.metadata.userId
    ensures r.Ok? ==> r.value.private[IdentityProviderKey] == token.metadata.identityProvider.name
    ensures r.Ok? ==> r.value.registered.issuer == Some(BoxerIssuer)
    ensures r.Ok? ==> r.value.registered.audience == Some(BoxerAudience)
    ensures r.Ok? ==> r.value.registered.expiration == Some(ExpirationSeconds(nowNanos).value)
    ensures r.Ok? ==> r.value.registered.subject.None? && r.value.registered.notBefore.None? &&
                      r.value.registered.issuedAt.None? && r.value.registered.jsonWebTokenId.None?
  {
    match enc.compress(token.policy.content)
    case Err(e) => Err(e)
    case Ok(compressed) =>
      match ExpirationSeconds(nowNanos)
      case Err(e) => Err(e)
      case Ok(expiration) =>
        Ok(Claims(
          RegisteredClaims(Some(BoxerIssuer), None, Some(BoxerAudience), Some(expiration), None, None, None),
          map[ApiVersionKey := token.version,
              PolicyKey := enc.base64(compressed),
              UserIdKey := token.metadata.userId,
              IdentityProviderKey := token.metadata.identityProvider.name]))
  }

  /**
   * `try_into::<Claims>`: compresses the policy, inserts the private claims one by one
   * into a default claim set, then sets issuer, audience and expiration.
   */
  method TryIntoClaims(token: InternalToken, enc: Encoders, nowNanos: int) returns (r: Result<Claims>)
    ensures r == ClaimsOf(token, enc, nowNanos)
  {
    var compressed := enc.compress(token.policy.content);
    if compressed.Err? {
      return Err(compressed.error);
    }
    var claims := DefaultClaims();
    claims := claims.(private := claims.private[ApiVersionKey := token.version]);
    claims := claims.(private := claims.private[PolicyKey := enc.base64(compressed.value)]);
    claims := claims.(private := claims.private[UserIdKey := token.metadata.userId]);
    claims := claims.(private := claims.private[IdentityProviderKey := token.metadata.identityProvider.name]);
    claims := claims.(registered := claims.registered.(issuer := Some(BoxerIssuer)));
    claims := claims.(registered := claims.registered.(audience := Some(BoxerAudience)));
    var expiration := ExpirationSeconds(nowNanos);
    if expiration.Err? {
      return Err(expiration.error);
    }
    claims := claims.(registered := claims.registered.(expiration := Some(expiration.value)));
    r := Ok(claims);
  }

  /** A token built with `new` carries `"v1"` as its api-version claim. */
  lemma NewTokenApiVersion(policy: Policy, userId: string, provider: string, enc: Encoders, nowNanos: int)
    requires ClaimsOf(NewInternalToken(policy, userId, provider), enc, nowNanos).Ok?
    ensures ClaimsOf(NewInternalToken(policy, userId, provider), enc, nowNanos).value.private[ApiVersionKey] == "v1"
  {
  }

  /**
   * With a decoder that inverts `base64` and an inflater that inverts `compress`, the policy
   * claim decodes back to exactly the policy text.
   */
  lemma PolicyClaimRoundTrip(token: InternalToken, enc: Encoders, nowNanos: int,
                             decode: string -> Option<seq<byte>>, inflate: seq<byte> -> string)
    requires forall b :: decode(enc.base64(b)) == Some(b)
    requires forall s :: enc.compress(s).Ok? ==> inflate(enc.compress(s).value) == s
    requires ClaimsOf(token, enc, nowNanos).Ok?
    ensures decode(ClaimsOf(token, enc, nowNanos).value.private[PolicyKey]).Some?
    ensures inflate(decode(ClaimsOf(token, enc, nowNanos).value.private[PolicyKey]).value) == token.policy.content
  {
  }
}
