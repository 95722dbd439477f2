/** The pieces of Drupal's access API the two access handlers use. */
module Access {
  /** An account's permissions, by machine name. */
  type Permissions = set<string>

  /** An access handler answers allowed, or neutral ("no opinion"). */
  datatype AccessResult = Allowed | Neutral

  /** AccessResult::allowedIfHasPermission(). */
  function AllowedIfHasPermission(account: Permissions, p: string): (r: AccessResult)
    ensures r == Allowed <==> p in account
  {
    if p in account then Allowed else Neutral
  }

  /** AccessResult::allowedIfHasPermissions() with the 'OR' conjunction. */
  function AllowedIfHasAny(account: Permissions, ps: seq<string>): (r: AccessResult)
    ensures r == Allowed <==> exists p :: p in ps && p in account
  {
    if ps == [] then Neutral
    else if ps[0] in account then Allowed
    else
      var rest := AllowedIfHasAny(account, ps[1..]);
      assert forall p :: p in ps <==> p == ps[0] || p in ps[1..];
      rest
  }

  /** Granting more permissions never takes access away. */
  lemma {:induction false} AllowedIfHasAnyMonotone(a: Permissions, b: Permissions, ps: seq<string>)
    requires a <= b && AllowedIfHasAny(a, ps) == Allowed
    ensures AllowedIfHasAny(b, ps) == Allowed
  {
    var p :| p in ps && p in a;
    assert p in b;
  }
}
