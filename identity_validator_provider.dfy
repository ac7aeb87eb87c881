/** The registry of per-provider validators, `ExternalIdentityValidationService`. */
module IdentityValidatorProvider {
  import opened Base
  import opened ExternalModels
  import opened ExternalValidation

  const ValidatorNotFoundPrefix := "Could not find validator for provider: "

  /** The lookup failure for `provider`, naming it. */
  function NotFound(provider: ExternalIdentityProvider): (msg: string)
    ensures |ValidatorNotFoundPrefix| <= |msg|
    ensures msg[..|ValidatorNotFoundPrefix|] == ValidatorNotFoundPrefix
    ensures msg[|ValidatorNotFoundPrefix|..] == provider.name
  {
    ValidatorNotFoundPrefix + provider.name
  }

  /**
   * The map from provider to validator handle. The source guards it with a reader-writer
   * lock; each operation here is one atomic step on `validators`.
   */
  class ExternalIdentityValidationService {
    var validators: map<ExternalIdentityProvider, Validator>

    /** `ExternalIdentityValidationService::new`: no validators, so every lookup fails. */
    constructor ()
      ensures validators == map[]
      ensures forall p :: Get(p) == Err(NotFound(p))
    {
      validators := map[];
    }

    /** `get`: the installed validator for `provider`, or an error naming the provider. Changes nothing. */
    function Get(provider: ExternalIdentityProvider): (r: Result<Validator>)
      reads this
      ensures r.Ok? <==> provider in validators
      ensures r.Ok? ==> r.value == validators[provider]
      ensures r.Err? ==> r.error == NotFound(provider)
    {
      if provider in validators then Ok(validators[provider]) else Err(NotFound(provider))
    }

    /**
     * `put`: builds a validator from `settings` (the OIDC build, `build`, lies outside this
     * model and may fail) and installs it under `provider`, replacing any earlier one. On a
     * failed build the error is returned and the map is untouched.
     */
    method Put(provider: ExternalIdentityProvider, settings: OidcExternalIdentityProviderSettings,
               build: (OidcExternalIdentityProviderSettings, string) -> Result<Validator>)
      returns (r: Result<()>)
      modifies this
      ensures build(settings, provider.name).Err? ==>
                r == Err(build(settings, provider.name).error) && validators == old(validators)
      ensures build(settings, provider.name).Ok? ==>
                r == Ok(()) && validators == old(validators)[provider := build(settings, provider.name).value]
      ensures r.Ok? ==> Get(provider) == Ok(build(settings, provider.name).value)
      ensures forall q :: q != provider ==> Get(q) == old(Get(q))
    {
      var built := build(settings, provider.name);
      if built.Err? {
        return Err(built.error);
      }
      validators := validators[provider := built.value];
      r := Ok(());
    }
  }

  /** Two successful puts for one provider: the second validator is the one found. */
  method LastPutWins(service: ExternalIdentityValidationService, provider: ExternalIdentityProvider,
                     first: OidcExternalIdentityProviderSettings, second: OidcExternalIdentityProviderSettings,
                     build: (OidcExternalIdentityProviderSettings, string) -> Result<Validator>)
    returns (found: Result<Validator>)
    modifies service
    requires build(first, provider.name).Ok? && build(second, provider.name).Ok?
    ensures found == Ok(build(second, provider.name).value)
  {
    var _ := service.Put(provider, first, build);
    var _ := service.Put(provider, second, build);
    found := service.Get(provider);
  }
}
