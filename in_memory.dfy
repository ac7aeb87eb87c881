/**
 * The in-memory `UpsertRepository` implementations: the identity store, the policy store
 * and the policy-attachment store. Each source method takes the map's read or write guard
 * and performs one map access; here each is one sequential, atomic update of the `entries` field.
 */
module InMemory {
  import opened Base
  import opened ExternalModels

  const EntityNotFound := "Entity not found"

  /**
   * A store whose upsert inserts over whatever is stored: the identity store
   * (keyed by a `(provider, id)` pair) and the policy store (keyed by policy id).
   */
  class ReplacingRepository<K(==), E> {
    var entries: map<K, E>

    constructor ()
      ensures entries == map[]
    {
      entries := map[];
    }

    /** `get`: the stored entity, or "Entity not found". Reads the map and changes nothing. */
    function Get(key: K): (r: Result<E>)
      reads this
      ensures r.Ok? <==> key in entries
      ensures r.Ok? ==> r.value == entries[key]
      ensures r.Err? ==> r.error == EntityNotFound
    {
      if key in entries then Ok(entries[key]) else Err(EntityNotFound)
    }

    /** `upsert`: replaces the entry for `key` wholesale; never fails. */
    method Upsert(key: K, entity: E) returns (r: Result<()>)
      modifies this
      ensures r == Ok(())
      ensures entries == old(entries)[key := entity]
      ensures Get(key) == Ok(entity)
      ensures forall k :: k != key && k in old(entries) ==> k in entries && entries[k] == old(entries)[k]
      ensures forall k :: k != key && k in entries ==> k in old(entries)
    {
      entries := entries[key := entity];
      r := Ok(());
    }

    /** `delete`: removes the entry for `key`, if any; never fails, also for an absent key. */
    method Delete(key: K) returns (r: Result<()>)
      modifies this
      ensures r == Ok(())
      ensures entries == old(entries) - {key}
      ensures Get(key) == Err(EntityNotFound)
      ensures forall k :: k != key && k in old(entries) ==> k in entries && entries[k] == old(entries)[k]
    {
      entries := entries - {key};
      r := Ok(());
    }
  }

  /** The identity store: `(provider, user id)` to identity. */
  type IdentityRepository = ReplacingRepository<(string, string), ExternalIdentity>

  /** The policy store: policy id to policy. */
  type PolicyStore = ReplacingRepository<string, Policy>

  /**
   * The attachment merge as the source writes it: the stored attachment is bound to the
   * same name as the incoming one, so the stored set is unioned with itself and the
   * incoming policy ids are ignored.
   */
  function MergeAsWritten(existing: PolicyAttachment, incoming: PolicyAttachment): (r: PolicyAttachment)
    ensures r == existing
  {
    PolicyAttachment(existing.externalIdentity, existing.policies + existing.policies)
  }

  /** The intended attachment merge: the stored owner, with the union of both policy sets. */
  function MergeAdditive(existing: PolicyAttachment, incoming: PolicyAttachment): (r: PolicyAttachment)
    ensures r.externalIdentity == existing.externalIdentity
    ensures existing.policies <= r.policies && incoming.policies <= r.policies
    ensures forall p :: p in r.policies ==> p in existing.policies || p in incoming.policies
  {
    PolicyAttachment(existing.externalIdentity, existing.policies + incoming.policies)
  }

  /** Upserting `{p1}` and then `{p2}` keeps only `p1`: the second upsert's ids are lost. */
  lemma AsWrittenMergeDropsIncoming(owner: ExternalIdentity)
    ensures MergeAsWritten(PolicyAttachment(owner, {"p1"}), PolicyAttachment(owner, {"p2"})).policies == {"p1"}
    ensures MergeAsWritten(PolicyAttachment(owner, {"p1"}), PolicyAttachment(owner, {"p2"})).policies != {"p1", "p2"}
  {
    assert "p2" in {"p1", "p2"};
    assert "p2" !in {"p1"};
  }

  /** The additive merge unions the sets, and repeating the same upsert changes nothing. */
  lemma MergeAdditiveLaws(a: PolicyAttachment, b: PolicyAttachment)
    ensures MergeAdditive(a, b).policies == a.policies + b.policies
    ensures MergeAdditive(MergeAdditive(a, b), b) == MergeAdditive(a, b)
    ensures MergeAdditive(a, a) == a
  {
  }

  /** The policy-attachment store: identity to attachment. */
  class AttachmentRepository {
    var entries: map<ExternalIdentity, PolicyAttachment>

    constructor ()
      ensures entries == map[]
    {
      entries := map[];
    }

    /** `get`: the stored attachment, or "Entity not found". Reads the map and changes nothing. */
    function Get(key: ExternalIdentity): (r: Result<PolicyAttachment>)
      reads this
      ensures r.Ok? <==> key in entries
      ensures r.Ok? ==> r.value == entries[key]
      ensures r.Err? ==> r.error == EntityNotFound
    {
      if key in entries then Ok(entries[key]) else Err(EntityNotFound)
    }

    /**
     * `upsert` as the source behaves: an absent key gets `entity` as it is; a present
     * key keeps its stored attachment unchanged. Never fails.
     */
    method Upsert(key: ExternalIdentity, entity: PolicyAttachment) returns (r: Result<()>)
      modifies this
      ensures r == Ok(())
      ensures key !in old(entries) ==> entries == old(entries)[key := entity]
      ensures key in old(entries) ==> entries == old(entries)
      ensures forall k :: k != key ==> Get(k) == old(Get(k))
    {
      if key in entries {
        var stored := entries[key];
        entries := entries[key := MergeAsWritten(stored, entity)];
      } else {
        entries := entries[key := entity];
      }
      r := Ok(());
    }

    /** `upsert` as designed: a present key gets the union of its stored ids and the new ones. */
    method UpsertAdditive(key: ExternalIdentity, entity: PolicyAttachment) returns (r: Result<()>)
      modifies this
      ensures r == Ok(())
      ensures key !in old(entries) ==> entries == old(entries)[key := entity]
      ensures key in old(entries) ==> entries == old(entries)[key := MergeAdditive(old(entries)[key], entity)]
      ensures key in entries && entity.policies <= entries[key].policies
      ensures forall k :: k != key ==> Get(k) == old(Get(k))
    {
      if key in entries {
        var stored := entries[key];
        entries := entries[key := MergeAdditive(stored, entity)];
      } else {
        entries := entries[key := entity];
      }
      r := Ok(());
    }

    /** `delete`: removes the whole attachment record for `key`; never fails, also for an absent key. */
    method Delete(key: ExternalIdentity) returns (r: Result<()>)
      modifies this
      ensures r == Ok(())
      ensures entries == old(entries) - {key}
      ensures Get(key) == Err(EntityNotFound)
      ensures forall k :: k != key ==> Get(k) == old(Get(k))
    {
      entries := entries - {key};
      r := Ok(());
    }
  }

  /** Two upserts for one identity: as written the second set is lost; the additive upsert keeps both. */
  method TwoUpserts(owner: ExternalIdentity, a: set<string>, b: set<string>)
    returns (asWritten: set<string>, additive: set<string>)
    ensures asWritten == a
    ensures additive == a + b
  {
    var store := new AttachmentRepository();
    var _ := store.Upsert(owner, PolicyAttachment(owner, a));
    var _ := store.Upsert(owner, PolicyAttachment(owner, b));
    var got := store.Get(owner);
    asWritten := got.value.policies;

    var fixed := new AttachmentRepository();
    var _ := fixed.UpsertAdditive(owner, PolicyAttachment(owner, a));
    var _ := fixed.UpsertAdditive(owner, PolicyAttachment(owner, b));
    var got' := fixed.Get(owner);
    additive := got'.value.policies;
  }

  /** Upsert, get and delete in sequence on a replacing store. */
  method UpsertGetDelete<K(==), E>(store: ReplacingRepository<K, E>, key: K, first: E, second: E)
    returns (afterUpserts: Result<E>, afterDelete: Result<E>)
    modifies store
    ensures afterUpserts == Ok(second)
    ensures afterDelete == Err(EntityNotFound)
  {
    var _ := store.Upsert(key, first);
    var _ := store.Upsert(key, second);
    afterUpserts := store.Get(key);
    var _ := store.Delete(key);
    var _ := store.Delete(key);
    afterDelete := store.Get(key);
  }
}
