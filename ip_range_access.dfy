/** IpRangeAccessControlHandler: the access decisions for ip_range entities. */
module IpRangeAccess {
  import opened Access

  /** checkAccess(): one permission for view, edit or administer for update, delete or administer for delete. */
  function CheckAccess(operation: string, account: Permissions): (r: AccessResult)
    ensures operation == "view" ==> (r == Allowed <==> "view IP Range" in account)
    ensures operation == "update" ==> (r == Allowed <==> "edit IP Range" in account || "administer IP Range" in account)
    ensures operation == "delete" ==> (r == Allowed <==> "delete IP Range" in account || "administer IP Range" in account)
    ensures operation != "view" && operation != "update" && operation != "delete" ==> r == Neutral
  {
    if operation == "view" then AllowedIfHasPermission(account, "view IP Range")
    else if operation == "update" then AllowedIfHasAny(account, ["edit IP Range", "administer IP Range"])
    else if operation == "delete" then AllowedIfHasAny(account, ["delete IP Range", "administer IP Range"])
    else Neutral
  }

  /** checkCreateAccess(): create or administer. */
  function CheckCreateAccess(account: Permissions): (r: AccessResult)
    ensures r == Allowed <==> "create IP Range" in account || "administer IP Range" in account
  {
    AllowedIfHasAny(account, ["create IP Range", "administer IP Range"])
  }

  /** An account with more permissions is allowed at least what a smaller one is. */
  lemma Monotone(operation: string, a: Permissions, b: Permissions)
    requires a <= b
    ensures CheckAccess(operation, a) == Allowed ==> CheckAccess(operation, b) == Allowed
    ensures CheckCreateAccess(a) == Allowed ==> CheckCreateAccess(b) == Allowed
  {
  }

  /** The administer permission grants update, delete and create, but not view. */
  lemma AdministerIsNotView()
    ensures var admin := {"administer IP Range"};
      && CheckAccess("update", admin) == Allowed && CheckAccess("delete", admin) == Allowed
      && CheckCreateAccess(admin) == Allowed && CheckAccess("view", admin) == Neutral
  {
  }
}
