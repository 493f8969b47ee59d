/** The internal authentication token (shared/auth/token.go) and the two
    permission checks every HTTP handler builds on. */
module Auth {
  import opened Common

  /** The permissions the modelled handlers ask for. */
  datatype Permission =
    | CreateAnyAddressBookEntry
    | UpdateAnyAddressBookEntry
    | DeleteAnyAddressBookEntry
    | ViewAnyAddressBookEntry
    | CreateIntel
    | InvalidateIntel
    | ViewAnyIntel
    | DeliverIntel
    | ManageIntelDelivery
    | CreateOperation
    | UpdateOperation
    | ViewAnyOperation
    | ViewOperationMembers
    | UpdateOperationMembers
    | CreateUser
    | UpdateUser
    | UpdateUserPass
    | SetAdminUser
    | SetUserActiveState
    | ViewUser

  /** `auth.Token`; the user id and name are meaningful only when
      authenticated. */
  datatype Token = Token(userId: Id, username: string, isAuthenticated: bool, isAdmin: bool, permissions: set<Permission>)

  /** `auth.HasPermission`: never for anonymous callers, always for admins,
      otherwise when every requested permission is granted. */
  function HasPermission(t: Token, toHave: set<Permission>): (ok: bool)
    ensures !t.isAuthenticated ==> !ok
    ensures t.isAuthenticated && t.isAdmin ==> ok
    ensures t.isAuthenticated && !t.isAdmin ==> (ok <==> toHave <= t.permissions)
  {
    t.isAuthenticated && (t.isAdmin || toHave <= t.permissions)
  }

  /** `auth.AssurePermission`: unauthorized for anonymous callers, forbidden
      when a requested permission is missing. */
  function AssurePermission(t: Token, toHave: set<Permission>): (r: Result<()>)
    ensures !t.isAuthenticated ==> r == Err(Unauthorized)
    ensures t.isAuthenticated && !HasPermission(t, toHave) ==> r == Err(Forbidden)
    ensures r.Ok? <==> HasPermission(t, toHave)
  {
    if !t.isAuthenticated then Err(Unauthorized)
    else if t.isAdmin then Ok(())
    else if toHave <= t.permissions then Ok(())
    else Err(Forbidden)
  }

  /** The user limit most read handlers apply: none for callers holding the
      view-any permission, otherwise the caller's own id. */
  function LimitToUserUnless(t: Token, viewAny: Permission): (limit: Option<Id>)
    ensures limit.None? <==> HasPermission(t, {viewAny})
    ensures limit.Some? ==> limit.value == t.userId
  {
    if HasPermission(t, {viewAny}) then None else Some(t.userId)
  }

  /** Requesting more permissions never makes a check succeed that failed. */
  lemma HasPermissionMonotone(t: Token, fewer: set<Permission>, more: set<Permission>)
    requires fewer <= more
    ensures HasPermission(t, more) ==> HasPermission(t, fewer)
  {
  }
}
