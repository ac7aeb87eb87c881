/** The validator capability and the stub validator of `src/services/external_identity_validator.rs`. */
module ExternalValidation {
  import opened Base
  import opened ExternalModels

  /**
   * A validator handle (`Arc<dyn ExternalIdentityValidator>`), reduced to its one capability:
   * turning a bearer token into an identity, or failing.
   */
  datatype Validator = Validator(validate: string -> Result<ExternalIdentity>)

  const StubProviderName := "google"

  /** `ExternalIdentityValidatorImpl::validate`: accepts every token and names it as the user. */
  function StubValidate(token: string): (r: Result<ExternalIdentity>)
    ensures r.Ok?
    ensures r.value.userId == token
    ensures r.value.identityProvider == "google"
  {
    Ok(ExternalIdentity(token, StubProviderName))
  }

  /** The stub as a validator handle. */
  function StubValidator(): (v: Validator)
    ensures forall token :: v.validate(token) == StubValidate(token)
  {
    Validator(StubValidate)
  }

  /** Identities are compared field by field, so two validations agree exactly when the tokens do. */
  lemma StubValidateInjective(a: string, b: string)
    ensures StubValidate(a) == StubValidate(b) <==> a == b
  {
  }

  /** The unit test: validating `"123"` gives user `"123"` at provider `"google"`. */
  lemma StubValidatesExample()
    ensures StubValidate("123") == Ok(ExternalIdentity("123", "google"))
  {
  }
}
