/** The read-only policy repository, `InMemoryPolicyRepository`. */
module PolicyRepository {
  import opened Base
  import opened ExternalModels

  const PolicyNotFound := "Policy not found"

  /** The one identity the default repository knows. */
  const DummyIdentity := ExternalIdentity("user@example.com", "provider")

  /**
   * Identity to policy text. The source freezes the map behind a shared pointer and offers
   * only a read operation, so the repository is a value that never changes.
   */
  datatype InMemoryPolicyRepository = InMemoryPolicyRepository(policies: map<ExternalIdentity, string>) {

    /** `get_policy`: the stored policy text, or "Policy not found". */
    function GetPolicy(identity: ExternalIdentity): (r: Result<string>)
      ensures r.Ok? <==> identity in policies
      ensures r.Ok? ==> r.value == policies[identity]
      ensures r.Err? ==> r.error == PolicyNotFound
    {
      if identity in policies then Ok(policies[identity]) else Err(PolicyNotFound)
    }
  }

  /** `InMemoryPolicyRepository::new`: one entry, the dummy identity with the empty policy. */
  method New() returns (repo: InMemoryPolicyRepository)
    ensures |repo.policies| == 1
    ensures repo.GetPolicy(DummyIdentity) == Ok("")
    ensures forall i :: i != DummyIdentity ==> repo.GetPolicy(i) == Err(PolicyNotFound)
  {
    var policy := "";
    var dummyIdentity := ExternalIdentity("user@example.com", "provider");
    var m: map<ExternalIdentity, string> := map[];
    m := m[dummyIdentity := policy];
    repo := InMemoryPolicyRepository(m);
  }
}
