/**
 * IpChangeEntityDeleteForm: abandoning an IP change deletes the ranges it
 * created (add_new_ip) and then the change itself.
 */
module IpChangeDeleteForm {
  import opened Storage
  import opened Routes
  import opened IpChangeEntity
  import opened RangeDeletion

  /**
   * submitForm(): the redirect is taken first; each add_new_ip range that
   * still loads is deleted, then the change is deleted. The redirect takes
   * the id of the change's organization entity, so that organization must
   * load (the source fails with a PHP error otherwise, before deleting
   * anything).
   */
  method SubmitForm(entity: IpChange, store: EntityStore) returns (redirect: Route)
    requires store.Valid() && entity.id.Some?
    requires entity.organization in store.organizations
    modifies store`ranges, store`changes, store`log
    ensures store.Valid()
    ensures redirect == IpManager(entity.organization)
    ensures store.ranges == old(store.ranges) - Ids(entity.addNewIp)
    ensures store.changes == old(store.changes) - {entity.id.value}
    ensures store.log == old(store.log) + Deletions(entity.addNewIp, old(store.ranges).Keys) + [ChangeDeleted(entity.id.value)]
    ensures entity.addNewIp == [] ==>
      store.ranges == old(store.ranges) && store.log == old(store.log) + [ChangeDeleted(entity.id.value)]
  {
    redirect := IpManager(entity.organization);
    if entity.addNewIp != [] {
      DeleteLoaded(store, entity.addNewIp);
    }
    entity.Delete(store);
  }

  /** Ranges the change only references (add_ip or delete_ip, not add_new_ip) survive the abandon. */
  lemma AbandonKeepsReferenced(m: map<RangeId, RangeRow>, addNewIp: seq<RangeId>, id: RangeId)
    requires id in m && id !in addNewIp
    ensures id in m - Ids(addNewIp) && (m - Ids(addNewIp))[id] == m[id]
  {
  }
}
