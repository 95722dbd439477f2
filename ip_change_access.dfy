/** IpChangeAccessControlHandler: the access decisions for ip_change entities. */
module IpChangeAccess {
  import opened Access

  /** checkAccess(): one permission for view, edit or administer for update, delete or administer for delete. */
  function CheckAccess(operation: string, account: Permissions): (r: AccessResult)
    ensures operation == "view" ==> (r == Allowed <==> "view IP Change" in account)
    ensures operation == "update" ==> (r == Allowed <==> "edit IP Change" in account || "administer IP Change" in account)
    ensures operation == "delete" ==> (r == Allowed <==> "delete IP Change" in account || "administer IP Change" in account)
    ensures operation != "view" && operation != "update" && operation != "delete" ==> r == Neutral
  {
    if operation == "view" then AllowedIfHasPermission(account, "view IP Change")
    else if operation == "update" then AllowedIfHasAny(account, ["edit IP Change", "administer IP Change"])
    else if operation == "delete" then AllowedIfHasAny(account, ["delete IP Change", "administer IP Change"])
    else Neutral
  }

  /** checkCreateAccess(): create or administer. */
  function CheckCreateAccess(account: Permissions): (r: AccessResult)
    ensures r == Allowed <==> "create IP Change" in account || "administer IP Change" in account
  {
    AllowedIfHasAny(account, ["create IP Change", "administer IP Change"])
  }

  /** An account with more permissions is allowed at least what a smaller one is. */
  lemma Monotone(operation: string, a: Permissions, b: Permissions)
    requires a <= b
    ensures CheckAccess(operation, a) == Allowed ==> CheckAccess(operation, b) == Allowed
    ensures CheckCreateAccess(a) == Allowed ==> CheckCreateAccess(b) == Allowed
  {
  }

  /** The administer permission grants update, delete and create, but not view. */
  lemma AdministerIsNotView()
    ensures var admin := {"administer IP Change"};
      && CheckAccess("update", admin) == Allowed && CheckAccess("delete", admin) == Allowed
      && CheckCreateAccess(admin) == Allowed && CheckAccess("view", admin) == Neutral
  {
  }
}
