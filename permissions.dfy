/** The permission check (`check_permissions`) over the `permissions` claim
    of a decoded token payload. */
module Permissions {
  import opened PyValues
  import opened Errors

  /** `check_permissions(permission, payload)`. An absent claim counts as the
      empty list; a claim that is not a list is malformed; otherwise the
      permission must be one of its elements. Elements that are not strings
      are not rejected: they simply never equal the permission. */
  function CheckPermissions(permission: string, payload: Object): (r: Result<bool>)
    ensures r == Ok(true) <==>
      "permissions" in payload && payload["permissions"].JArr? && JStr(permission) in payload["permissions"].items
    ensures r == Fail(PermissionsMalformed) <==> "permissions" in payload && !payload["permissions"].JArr?
    ensures r == Ok(true) || r == Fail(PermissionsMalformed) || r == Fail(PermissionNotFound)
  {
    var perms := GetOr(payload, "permissions", JArr([]));
    if !perms.JArr? then
      Fail(PermissionsMalformed)
    else if JStr(permission) !in perms.items then
      Fail(PermissionNotFound)
    else
      Ok(true)
  }

  /** A payload without a `permissions` claim is refused with 403, whatever is asked. */
  lemma AbsentClaimForbidden(permission: string, payload: Object)
    requires "permissions" !in payload
    ensures CheckPermissions(permission, payload) == Fail(PermissionNotFound)
    ensures CheckPermissions(permission, payload).raised.error.statusCode == 403
  {
  }

  /** Only the `permissions` claim is consulted: changing any other claim
      does not change the verdict. */
  lemma OnlyPermissionsClaimMatters(permission: string, payload: Object, claim: string, v: Json)
    requires claim != "permissions"
    ensures CheckPermissions(permission, payload[claim := v]) == CheckPermissions(permission, payload)
  {
    assert GetOr(payload[claim := v], "permissions", JArr([])) == GetOr(payload, "permissions", JArr([]));
  }

  /** Granting is monotone: a permission granted by a list is still granted
      when more entries of any type are added to the list. */
  lemma GrantSurvivesMoreEntries(permission: string, payload: Object, extra: seq<Json>)
    requires CheckPermissions(permission, payload) == Ok(true)
    ensures CheckPermissions(permission, payload["permissions" := JArr(payload["permissions"].items + extra)]) == Ok(true)
  {
    var items := payload["permissions"].items;
    assert JStr(permission) in items + extra by {
      var i :| 0 <= i < |items| && items[i] == JStr(permission);
      assert (items + extra)[i] == JStr(permission);
    }
  }
}
