/** The plain value types of `src/models/external`. */
module ExternalModels {

  /** An external identity provider; two providers are equal exactly when their names are. */
  datatype ExternalIdentityProvider = ExternalIdentityProvider(name: string)

  /** `From<String> for ExternalIdentityProvider`. */
  function ProviderFrom(name: string): (p: ExternalIdentityProvider)
    ensures p.name == name
  {
    ExternalIdentityProvider(name)
  }

  lemma ProviderEqualityIsNameEquality(p: ExternalIdentityProvider, q: ExternalIdentityProvider)
    ensures p == q <==> p.name == q.name
  {
  }

  /** The raw bearer credential presented by a caller. */
  datatype ExternalToken = ExternalToken(token: string)

  /** `From<String> for ExternalToken`. */
  function TokenFrom(s: string): (t: ExternalToken)
    ensures t.token == s
  {
    ExternalToken(s)
  }

  /** `Into<String> for ExternalToken`. */
  function TokenInto(t: ExternalToken): (s: string)
    ensures s == t.token
  {
    t.token
  }

  lemma TokenRoundTrip(s: string, t: ExternalToken)
    ensures TokenInto(TokenFrom(s)) == s
    ensures TokenFrom(TokenInto(t)) == t
  {
  }

  /** A validated caller identity; the key of the attachment and policy maps. No case normalisation is applied. */
  datatype ExternalIdentity = ExternalIdentity(userId: string, identityProvider: string)

  /** OIDC trust configuration for one provider. */
  datatype OidcExternalIdentityProviderSettings = OidcExternalIdentityProviderSettings(
    userIdClaim: string,
    discoveryUrl: string,
    issuers: seq<string>,
    audiences: seq<string>)

  /** Opaque policy content. */
  datatype Policy = Policy(content: string)

  /** The set of policy ids bound to one identity. */
  datatype PolicyAttachment = PolicyAttachment(externalIdentity: ExternalIdentity, policies: set<string>)
}
