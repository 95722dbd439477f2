/** IpRangeForm: the add/edit form of an ip_range. */
module IpRangeForm {
  import opened Wrappers
  import opened IpAddress
  import opened Storage
  import opened Routes
  import opened IpRangeEntity

  /** The status message save() shows, with the range's label. */
  datatype Message = Created(rangeLabel: string) | Updated(rangeLabel: string)

  /** The message for a save result: "created" exactly for SAVED_NEW. */
  function SaveMessage(result: SaveResult, rangeLabel: string): (m: Message)
    ensures m.Created? <==> result == SavedNew
    ensures m.rangeLabel == rangeLabel
  {
    if result == SavedNew then Created(rangeLabel) else Updated(rangeLabel)
  }

  /** The redirect: the IP manager of the route's organization when there is one, else the range page. */
  function SaveRedirect(routeOrganization: Option<OrgId>, range: RangeId): (r: Route)
    ensures routeOrganization.Some? ==> r == IpManager(routeOrganization.value)
    ensures routeOrganization.None? ==> r == RangeCanonical(range)
  {
    if routeOrganization.Some? then IpManager(routeOrganization.value) else RangeCanonical(range)
  }

  /** The title save() stores depends on the endpoints only, never on the title the form held. */
  lemma TitleFromEndpointsOnly(r: RangeRow, t1: string, t2: string)
    ensures Retitled(r.(title := t1)) == Retitled(r.(title := t2))
    ensures Retitled(r.(title := t1)).title == RangeTitle(r.start, r.end)
  {
  }

  /**
   * save(): sets the title to "<start> - <end>", saves the range, reports
   * whether it was created or updated, and picks the redirect.
   */
  method Save(entity: IpRange, store: EntityStore, routeOrganization: Option<OrgId>)
    returns (message: Message, redirect: Route)
    requires store.Valid()
    modifies entity`id, entity`title, store`ranges, store`nextRangeId, store`log
    ensures store.Valid()
    ensures entity.id.Some? && entity.title == RangeTitle(entity.ipStart, entity.ipEnd)
    ensures old(entity.id).Some? ==> entity.id == old(entity.id)
    ensures store.ranges == old(store.ranges)[entity.id.value := Retitled(old(entity.Row()))]
    ensures store.log == old(store.log) + [RangeSaved(entity.id.value)]
    ensures message == SaveMessage(if old(entity.id).None? then SavedNew else SavedUpdated, entity.title)
    ensures redirect == SaveRedirect(routeOrganization, entity.id.value)
  {
    entity.SetTitle(RangeTitle(entity.ipStart, entity.ipEnd));
    var result := entity.Save(store);
    message := SaveMessage(result, entity.GetTitle());
    redirect := SaveRedirect(routeOrganization, entity.id.value);
  }
}
