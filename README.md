# boxer-issuer token issuance, modelled in Dafny

This project models the deterministic core of boxer-issuer's token issuance. The issuer
exchanges an external bearer token, issued by an OIDC identity provider, for a signed
internal JWT. The parts modelled are:

- the `Authorization: Bearer <token>` header parser;
- the three in-memory stores (identities, policies, policy attachments);
- the registry of per-provider validators;
- the stub validator;
- the read-only policy repository;
- the version-1 internal token and its claim set;
- the `issue_token` / `generate_token` chain, which propagates errors.

Cryptography, compression, OIDC, the clock and the network stay outside the model. They
enter as function parameters (see "Left out").

Modules, one per source file or group:

| module | file | source |
|---|---|---|
| `Base` | base.dfy | shared `Result`, `Option`, `byte` |
| `ExternalModels` | external_models.dfy | src/models/external/*.rs |
| `Conversions` | conversions.dfy | src/http/conversions.rs |
| `InMemory` | in_memory.dfy | src/services/repositories/in_memory.rs |
| `ExternalValidation` | external_identity_validator.dfy | src/services/external_identity_validator.rs |
| `IdentityValidatorProvider` | identity_validator_provider.dfy | src/services/identity_validator_provider.rs |
| `InternalTokenV1` | internal_token.dfy | src/models/internal/v1/token.rs |
| `PolicyRepository` | policy_repository.dfy | src/services/policy_repository.rs |
| `TokenService` | token_service.dfy | src/services/token_service.rs |

The stores and the registry change a map in place, so each is a `class` with a `map` field.
Their mutating methods carry `modifies this` and state the whole new map. The header parser,
the stub validator and the orchestration are pure, so they are functions. The claim
conversion is a method that inserts claims one at a time. Its contract ties it to the
declarative function `ClaimsOf`.

The model follows what the code does. Where that differs from what the system is meant to do:

- Identities are not lower-cased or otherwise normalised; the code applies no normalisation.
- The attachment upsert is meant to be additive (the union of stored and new policy ids) but
  is not. See "Findings".
- `generate_token` does not read attachments or merge several policies. It asks the policy
  repository for one policy string keyed by the identity (`get_policy` returns `String`).
  `InternalToken::new` expects a `Policy`, so the model wraps that string as `Policy(content)`.
  An identity with no policy fails with "Policy not found"; it does not get an empty policy.
- `put` builds the validator while it holds the registry's write guard. Being sequential, the
  model cannot tell this apart from building first.
- A failed validation is reported with a message that names the provider and embeds the
  validator's error. Hiding that detail from callers happens only in the HTTP layer, which
  turns every failure into a plain 401 message.

Wired together, the stub validator (always provider `"google"`) and the default repository
(one identity at provider `"provider"`) can never issue a token. `StubWithDefaultRepositoryNeverIssues`
proves this.

## Model

| member | source | states |
|---|---|---|
| `ExternalModels.ProviderFrom` | src/models/external/identity_provider.rs:8-12 | the provider built from a string has that string as its name |
| `ExternalModels.ProviderEqualityIsNameEquality` | src/models/external/identity_provider.rs:1-5 | two providers are equal exactly when their names are |
| `ExternalModels.TokenRoundTrip` | src/models/external/token.rs:7-18 | `into(from(s)) == s` and `from(into(t)) == t` |
| `ExternalModels.TokenFrom` | src/models/external/token.rs:14-18 | the token wraps exactly the given string |
| `ExternalModels.TokenInto` | src/models/external/token.rs:7-11 | the string is exactly the wrapped token |
| `Conversions.Split` | src/http/conversions.rs:11 | `split(" ")` collected into a vector: always at least one piece (the empty string gives `[""]`); characterised by `SplitJoin`, `SplitPiecesHaveNoSpace` and `SplitUnique` |
| `Conversions.ToStr` | src/http/conversions.rs:9 | succeeds exactly when every byte is printable ASCII or a tab; the text is the bytes, character for character |
| `Conversions.TryFromHeader` | src/http/conversions.rs:8-25 | every rejection carries "Invalid token format" |
| `Conversions.SplitJoin` | src/http/conversions.rs:11 | joining the pieces of `split(" ")` with single spaces gives back the input |
| `Conversions.SplitPiecesHaveNoSpace` | src/http/conversions.rs:11 | no piece contains a space |
| `Conversions.SplitCount` | src/http/conversions.rs:11-13 | there is one piece more than there are spaces, so exactly two pieces means exactly one space |
| `Conversions.SplitWithoutSpace` | src/http/conversions.rs:11 | a space-free string is its own single piece |
| `Conversions.SplitAfterFirstSpace` | src/http/conversions.rs:11 | splitting `a + " " + b` with space-free `a` gives `a` followed by the pieces of `b` |
| `Conversions.SplitUnique` | src/http/conversions.rs:11 | the pieces are exactly the space-free strings whose join is the input (both directions) |
| `Conversions.ParseCharacterization` | src/http/conversions.rs:8-25 | the parser yields token `t` exactly when the header reads `"Bearer " + t` and `t` has no space |
| `Conversions.ParseBearerRoundTrip` | src/http/conversions.rs:11-21 | `Bearer <t>` with visible, space-free `t` parses to exactly `t` |
| `Conversions.RejectsWrongPieceCount` | src/http/conversions.rs:13-15 | any value whose split does not give exactly two pieces is rejected |
| `Conversions.RejectsWrongScheme` | src/http/conversions.rs:17-19 | a first piece other than `Bearer` is rejected |
| `Conversions.RejectsNonVisible` | src/http/conversions.rs:9-23 | a value with a byte that is not visible ASCII is rejected |
| `Conversions.ParsedTokenHasNoSpace` | src/http/conversions.rs:11-21 | an accepted token contains no space |
| `Conversions.AcceptsEmptyToken` | src/http/conversions.rs:11-21 | `"Bearer "` is accepted with the empty token |
| `Conversions.AcceptedText` | src/http/conversions.rs:11-21 | visible text is accepted exactly when it starts with `"Bearer "` and the rest has no space |
| `Conversions.RejectsSchemeOnly` | src/http/conversions.rs:13-15 | `"Bearer"` is rejected |
| `Conversions.RejectsThreePieces` | src/http/conversions.rs:13-15 | `"Bearer a b"` is rejected |
| `Conversions.RejectsDoubleSpace` | src/http/conversions.rs:13-15 | `"Bearer  a"` (three pieces) is rejected |
| `Conversions.RejectsBasicScheme` | src/http/conversions.rs:17-19 | `"Basic abc"` is rejected |
| `Conversions.RejectsLowerCaseScheme` | src/http/conversions.rs:17-19 | `"bearer abc"` is rejected: the scheme is case-sensitive |
| `InMemory.ReplacingRepository.Get` | src/services/repositories/in_memory.rs:12-17 | identity and policy `get`: the stored entity when the key is present, "Entity not found" when absent; reads only |
| `InMemory.ReplacingRepository.Upsert` | src/services/repositories/in_memory.rs:20-24 | identity and policy `upsert`: replaces the entry wholesale, so `get` then returns it; other keys unchanged; returns `Ok` |
| `InMemory.ReplacingRepository.Delete` | src/services/repositories/in_memory.rs:26-30 | identity and policy `delete`: afterwards `get` fails; other keys unchanged; `Ok` even for an absent key |
| `InMemory.UpsertGetDelete` | src/services/repositories/in_memory.rs:20-30 | after two upserts the second entity is found; after two deletes the key is not found |
| `InMemory.MergeAsWritten` | src/services/repositories/in_memory.rs:73-78 | the merge as written returns the stored attachment unchanged |
| `InMemory.AsWrittenMergeDropsIncoming` | src/services/repositories/in_memory.rs:73-74 | stored `{p1}` and incoming `{p2}` give `{p1}`, not `{p1, p2}` |
| `InMemory.MergeAdditive` | src/services/repositories/in_memory.rs:73-78 | intended merge: keeps the stored owner; contains both sets and nothing else |
| `InMemory.MergeAdditiveLaws` | src/services/repositories/in_memory.rs:72-80 | intended merge is the union, and repeating an upsert changes nothing |
| `InMemory.AttachmentRepository.Get` | src/services/repositories/in_memory.rs:62-67 | attachment `get`: the stored attachment or "Entity not found"; reads only |
| `InMemory.AttachmentRepository.Upsert` | src/services/repositories/in_memory.rs:70-86 | as written: an absent key stores the attachment as given; a present key keeps its stored attachment unchanged; other keys unchanged; `Ok` |
| `InMemory.AttachmentRepository.UpsertAdditive` | src/services/repositories/in_memory.rs:70-86 | intended: a present key gets the union of stored and new ids |
| `InMemory.AttachmentRepository.Delete` | src/services/repositories/in_memory.rs:88-92 | removes the whole record; afterwards `get` fails; other keys unchanged; `Ok` |
| `InMemory.TwoUpserts` | src/services/repositories/in_memory.rs:70-86 | upserting `a` then `b`: as written the store holds `a`; the additive upsert holds `a ∪ b` |
| `ExternalValidation.StubValidate` | src/services/external_identity_validator.rs:20-25 | the stub always succeeds, with the token as user id and `"google"` as provider |
| `ExternalValidation.StubValidator` | src/services/external_identity_validator.rs:16-26 | the stub handle validates exactly as `StubValidate` |
| `ExternalValidation.StubValidateInjective` | src/services/external_identity_validator.rs:5-9 | two validations give equal identities exactly when the tokens are equal |
| `ExternalValidation.StubValidatesExample` | src/services/external_identity_validator.rs:35-48 | `validate("123")` is user `"123"` at `"google"`, as the unit test asserts |
| `IdentityValidatorProvider.NotFound` | src/services/identity_validator_provider.rs:38 | the lookup error is "Could not find validator for provider: " followed by the provider's name |
| `IdentityValidatorProvider.ExternalIdentityValidationService.constructor` | src/services/identity_validator_provider.rs:54-59 | a fresh service holds no validators, and every `get` fails |
| `IdentityValidatorProvider.ExternalIdentityValidationService.Get` | src/services/identity_validator_provider.rs:34-40 | the installed validator, or the not-found error naming the provider; reads only |
| `IdentityValidatorProvider.ExternalIdentityValidationService.Put` | src/services/identity_validator_provider.rs:45-50 | a successful build is installed (replacing any earlier validator) and `get` returns it; a failed build returns its error and leaves the map unchanged; other providers unchanged |
| `IdentityValidatorProvider.LastPutWins` | src/services/identity_validator_provider.rs:45-50 | after two successful puts for one provider, the second validator is found |
| `InternalTokenV1.NewInternalToken` | src/models/internal/v1/token.rs:24-33 | version `"v1"`, the given policy and user id, and a provider with the given name |
| `InternalTokenV1.DefaultClaims` | src/models/internal/v1/token.rs:58 | `Claims::default()`: no private claims and every registered claim unset |
| `InternalTokenV1.ExpirationSeconds` | src/models/internal/v1/token.rs:76-77 | the expiry is one hour after the clock reading, truncated to whole seconds; it fails exactly when that instant is before the epoch |
| `InternalTokenV1.ExpirationIsOneHourLater` | src/models/internal/v1/token.rs:76-77 | for a clock at or after the epoch, the expiry is the current second plus 3600 |
| `InternalTokenV1.ClaimsOf` | src/models/internal/v1/token.rs:39-79 | a compression failure or clock failure is the result. Otherwise: exactly the four private keys, each with its value (version; base64 of compressed policy; user id; provider name); issuer and audience `boxer.sneaksanddata.com`; the expiry; no other registered claim |
| `InternalTokenV1.TryIntoClaims` | src/models/internal/v1/token.rs:52-78 | the claim set built one insert at a time equals `ClaimsOf` |
| `InternalTokenV1.NewTokenApiVersion` | src/models/internal/v1/token.rs:59-61 | a token built with `new` has api-version claim `"v1"` |
| `InternalTokenV1.PolicyClaimRoundTrip` | src/models/internal/v1/token.rs:52-65 | with inverses for base64 and compression, the policy claim decodes back to the policy text |
| `PolicyRepository.InMemoryPolicyRepository.GetPolicy` | src/services/policy_repository.rs:24-32 | the stored policy text when the identity is a key, "Policy not found" otherwise |
| `PolicyRepository.New` | src/services/policy_repository.rs:36-46 | one entry: identity (`user@example.com`, `provider`) with the empty policy; every other identity is not found |
| `TokenService.ValidationFailure` | src/services/token_service.rs:51-55 | the validation error message starts with the fixed prefix followed by the provider's name |
| `TokenService.TokenFor` | src/services/token_service.rs:61 | the internal token built from the looked-up policy, `identity.user_id` and `identity.identity_provider`: version `"v1"`, that policy text, that user id, a provider of that name |
| `TokenService.GenerateToken` | src/services/token_service.rs:59-68 | a failed policy lookup is the result, with nothing signed. A success is the signature, with the built key, over the claims of the token for that identity and its policy |
| `TokenService.IssueToken` | src/services/token_service.rs:36-58 | unknown provider: the lookup error. Rejected token: the error naming the provider. Accepted token: exactly `generate_token` of the identity |
| `TokenService.IssuedOnlyAfterValidation` | src/services/token_service.rs:41-67 | a successful issuance implies an installed validator accepted the token; the identity had a policy; the claims name that identity; the result is their signature |
| `TokenService.UnknownProviderAlwaysFails` | src/services/token_service.rs:41 | with no validator for the provider, issuance fails for every token |
| `TokenService.GenerateTokenPropagatesErrors` | src/services/token_service.rs:62-67 | claim, key and signing failures each become the result |
| `TokenService.StubWithDefaultRepositoryNeverIssues` | src/services/token_service.rs:59-61 | with the stub validator and the default repository, every issuance fails with "Policy not found" |
| `TokenService.StubEndToEnd` | src/services/token_service.rs:36-68 | with the stub and a policy for its identity, the signed claims carry the compressed policy, the token as user id, `"google"`, `"v1"` and an expiry one hour on |
| `TokenService.IssueWithStub` | src/services/token_service.rs:36-44 | on a fresh registry with the stub put under `"google"`, issuing equals generating for the stub's identity |

## Left out

- Concurrency: the `tokio` reader-writer guards and `.await` points are not modelled. Each store or registry operation is one atomic step.
- zlib compression, UTF-8 encoding of the policy text, and base64 are function parameters (`Encoders`). Nothing about their output is assumed beyond what a lemma requires.
- HMAC-SHA-256 key construction and HS256 JWT signing are function parameters of `Environment`.
- The OIDC validator build (`build_validator`) is a possibly failing function parameter of `Put`. OIDC validation itself sits inside whatever validator that function returns.
- Logging is not modelled: the `error!` calls on a failed validation and a failed signing have no effect in the model.
- The clock is a parameter. It is an integer count of nanoseconds relative to the Unix epoch, so the before-epoch error and the truncation to whole seconds can be stated. The panic when adding an hour would overflow `SystemTime` is not modelled.
- `TokenService.IssueToken`: embeds the validator's error message itself, not its `{:?}` debug rendering.
- The `UpsertRepository` trait is not a separate entity. Dafny traits are not used here. The identity and policy stores share one generic class, and the attachment store has its own class with the same three operations.
- `HeaderValue` construction rules are not modelled. A header value is any byte sequence. Only `to_str`'s visible-ASCII test is.
- `src/http/urls.rs` (routing, and mapping every failure to a generic 401 or 500 message) is not part of this model.
- `src/filters/oauth_filter.rs`, `boxer-issuer/src/filters/oauth_filter.rs`, `src/main.rs` and `src/services/configuration_manager.rs` are not part of this model. They are middleware, bootstrap and a background task.
- The older stub validator in `boxer-issuer/src/services/external_identity_validator.rs` is superseded by the `src/` version and is not part of this model.
- `Policy`, `PolicyAttachment` and `ExternalIdentity::new` have no definitions in the available sources and are not part of this model. Their shapes follow their uses: `.content`; `.external_identity` and the `.policies` set; `new(user_id, provider)`.
- Merge-order determinism is not stated. The code merges no policies, and every operation here is a function of its inputs.

## Findings

| source | as written | input that shows it | evidently intended | confidence | as-written member | corrected member |
|---|---|---|---|---|---|---|
| src/services/repositories/in_memory.rs:73-74 | the stored attachment is bound to `entity`, shadowing the parameter; the stored set is unioned with itself | upsert `(id, {p1})` then `(id, {p2})`: the store holds `{p1}` | the store holds `{p1, p2}`, the union of stored and new ids | high; not executed | `InMemory.AsWrittenMergeDropsIncoming` | `InMemory.MergeAdditive` |
