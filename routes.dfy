/** The routes the forms redirect to or link to. */
module Routes {
  import opened Storage

  datatype Route =
    | IpManager(organization: OrgId)      // ip_register.ip_manager
    | ChangeConfirm(change: ChangeId)     // ip_register.ip_change_confirm
    | ChangeEditForm(change: ChangeId)    // entity.ip_change.edit_form
    | ChangeDeleteForm(change: ChangeId)  // entity.ip_change.delete_form
    | RangeCanonical(range: RangeId)      // entity.ip_range.canonical
}
