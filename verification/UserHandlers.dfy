/** The HTTP side of the user service (user-svc/endpoints/user_handlers.go):
    the list filter read from the query and what each handler checks before
    it calls the store. Password hashing is outside the model; its outcome is
    an input. */
module UserHandlers {
  import opened Common
  import opened HttpQuery
  import opened Users
  import Auth
  import Search

  // ---------------------------------------------------------------------------
  // Query filters

  const QueryIncludeInactive: string := "include_inactive"

  /** `userFiltersFromQuery`: an absent parameter leaves inactive users out,
      a malformed one is bad input. */
  function FiltersFromQuery(q: Query): (r: Result<Filters>)
    ensures Get(q, QueryIncludeInactive) == "" ==> r == Ok(Filters(false))
    ensures r.Err? <==> Get(q, QueryIncludeInactive) != "" && ParseBool(Get(q, QueryIncludeInactive)).None?
    ensures r.Err? ==> r.code == BadInput
    ensures r.Ok? && Get(q, QueryIncludeInactive) != "" ==> Some(r.value.includeInactive) == ParseBool(Get(q, QueryIncludeInactive))
  {
    var includeInactive :- FlagFilter(Get(q, QueryIncludeInactive));
    Ok(Filters(includeInactive))
  }

  /** A filter written as a query parameter is read back unchanged. */
  lemma FiltersQueryRoundTrip(includeInactive: bool)
    ensures FiltersFromQuery(map[QueryIncludeInactive := FormatBool(includeInactive)]) == Ok(Filters(includeInactive))
  {
    ParseFormatBool(includeInactive);
  }

  // ---------------------------------------------------------------------------
  // Creation

  /** `createUserRequest`; the password is plain text. */
  datatype CreateRequest = CreateRequest(username: string, firstName: string, lastName: string, isAdmin: bool, pass: string)

  /** `handleCreateUser` up to the store call: the create-user permission is
      checked before the body is read, an admin additionally needs the
      set-admin permission, and the user is always created active.
      `hashed` is the outcome of hashing the password. */
  function CreateUserRequest(t: Auth.Token, body: Option<CreateRequest>, hashed: Result<string>): (r: Result<Decision<UserWithPass>>)
    ensures !t.isAuthenticated ==> r == Err(Unauthorized)
    ensures t.isAuthenticated && !Auth.HasPermission(t, {Auth.CreateUser}) ==> r == Err(Forbidden)
    ensures Auth.HasPermission(t, {Auth.CreateUser}) && body.None? ==> r == Err(BadInput)
    ensures (&& Auth.HasPermission(t, {Auth.CreateUser}) && body.Some? && body.value.isAdmin
             && !Auth.HasPermission(t, {Auth.SetAdminUser})) ==> r == Err(Forbidden)
    ensures r.Ok? <==>
      && Auth.HasPermission(t, {Auth.CreateUser}) && body.Some?
      && (body.value.isAdmin ==> Auth.HasPermission(t, {Auth.SetAdminUser})) && hashed.Ok?
    ensures r.Ok? ==>
      var u := UserWithPass(User(NilId, body.value.username, body.value.firstName, body.value.lastName, body.value.isAdmin, true), hashed.value);
      && (r.value.Accepted? <==> ValidateWithPass(u) == [])
      && (r.value.Accepted? ==> r.value.value == u)
      && (r.value.Invalid? ==> r.value.report == ValidateWithPass(u))
  {
    var _ :- Auth.AssurePermission(t, {Auth.CreateUser});
    if body.None? then Err(BadInput)
    else
      var req := body.value;
      if req.isAdmin && !Auth.HasPermission(t, {Auth.SetAdminUser}) then Err(Forbidden)
      else
        var pass :- hashed;
        var u := UserWithPass(User(NilId, req.username, req.firstName, req.lastName, req.isAdmin, true), pass);
        var report := ValidateWithPass(u);
        if report != [] then Ok(Invalid(report)) else Ok(Accepted(u))
  }

  /** Every created user is active, and an admin is created only by a caller
      allowed to make admins. */
  lemma CreatedUsersAreActive(t: Auth.Token, body: Option<CreateRequest>, hashed: Result<string>)
    requires CreateUserRequest(t, body, hashed).Ok? && CreateUserRequest(t, body, hashed).value.Accepted?
    ensures CreateUserRequest(t, body, hashed).value.value.user.isActive
    ensures CreateUserRequest(t, body, hashed).value.value.user.isAdmin ==> Auth.HasPermission(t, {Auth.SetAdminUser})
  {
  }

  // ---------------------------------------------------------------------------
  // Reading

  /** `handleGetUserByID` up to the store call: the id is parsed first; a
      caller views itself freely and others only with the view-user
      permission. */
  function GetUserRequest(t: Auth.Token, idText: string): (r: Result<Id>)
    ensures !t.isAuthenticated ==> r == Err(Unauthorized)
    ensures t.isAuthenticated && ParseUuid(idText).None? ==> r == Err(BadInput)
    ensures r.Ok? <==>
      t.isAuthenticated && ParseUuid(idText).Some?
      && (ParseUuid(idText).value == t.userId || Auth.HasPermission(t, {Auth.ViewUser}))
    ensures r.Ok? ==> Some(r.value) == ParseUuid(idText)
    ensures r.Err? && t.isAuthenticated && ParseUuid(idText).Some? ==> r.code == Forbidden
  {
    if !t.isAuthenticated then Err(Unauthorized)
    else match ParseUuid(idText)
      case None => Err(BadInput)
      case Some(id) =>
        if t.userId != id && !Auth.HasPermission(t, {Auth.ViewUser}) then Err(Forbidden)
        else Ok(id)
  }

  /** `handleGetUserByID` end to end. */
  function GetUser(st: Store, t: Auth.Token, idText: string): (r: Result<User>)
    ensures r.Ok? ==> GetUserRequest(t, idText).Ok? && r == UserById(st, GetUserRequest(t, idText).value)
    ensures GetUserRequest(t, idText).Err? ==> r == Err(GetUserRequest(t, idText).code)
  {
    var id :- GetUserRequest(t, idText);
    UserById(st, id)
  }

  /** `handleGetUsers` up to the store call: the view-user permission is
      needed, then the filters are read. */
  function ListUsersRequest(t: Auth.Token, q: Query): (r: Result<Filters>)
    ensures !t.isAuthenticated ==> r == Err(Unauthorized)
    ensures t.isAuthenticated && !Auth.HasPermission(t, {Auth.ViewUser}) ==> r == Err(Forbidden)
    ensures r.Ok? <==> Auth.HasPermission(t, {Auth.ViewUser}) && FiltersFromQuery(q).Ok?
    ensures r.Ok? ==> r == FiltersFromQuery(q)
  {
    var _ :- Auth.AssurePermission(t, {Auth.ViewUser});
    FiltersFromQuery(q)
  }

  /** `handleGetUsers` end to end. `asWritten` selects the store listing as
      written, which drops the active-only condition, or the documented one. */
  function GetUsers(st: Store, t: Auth.Token, q: Query, asWritten: bool): (r: Result<seq<User>>)
    ensures r.Ok? <==> ListUsersRequest(t, q).Ok?
    ensures r.Ok? ==> SortedByUsername(r.value)
    ensures r.Ok? && !asWritten ==> forall u :: u in r.value <==> u in AllUsers(st) && Listed(ListUsersRequest(t, q).value, u)
    ensures r.Ok? && asWritten ==> forall u :: u in r.value <==> u in AllUsers(st)
  {
    var f :- ListUsersRequest(t, q);
    Ok(if asWritten then UsersAsWritten(st, f) else ListUsers(st, f))
  }

  /** Without the query parameter, the documented listing shows active users
      only. */
  lemma DefaultListingIsActiveOnly(st: Store, t: Auth.Token, u: User)
    requires Auth.HasPermission(t, {Auth.ViewUser})
    requires u in GetUsers(st, t, map[], false).value
    ensures u.isActive
  {
  }

  /** Without the query parameter, the listing as written shows every user,
      inactive ones included. */
  lemma DefaultListingAsWrittenShowsInactive(st: Store, t: Auth.Token, u: User)
    requires Auth.HasPermission(t, {Auth.ViewUser})
    requires u in AllUsers(st)
    ensures GetUsers(st, t, map[], true).Ok? && u in GetUsers(st, t, map[], true).value
  {
  }

  /** `handleSearchUsers` up to the store call; the search parameters are
      not modelled. */
  function SearchUsersRequest(t: Auth.Token, q: Query): (r: Result<Filters>)
    ensures r.Ok? <==> Auth.HasPermission(t, {Auth.ViewUser}) && FiltersFromQuery(q).Ok?
    ensures r.Ok? ==> r == FiltersFromQuery(q)
    ensures !t.isAuthenticated ==> r == Err(Unauthorized)
    ensures t.isAuthenticated && !Auth.HasPermission(t, {Auth.ViewUser}) ==> r == Err(Forbidden)
  {
    var _ :- Auth.AssurePermission(t, {Auth.ViewUser});
    FiltersFromQuery(q)
  }

  /** Search and the documented listing use the same filters for the same
      query, and so admit the same users; the listing as written admits
      every stored user, so a default search leaves out inactive users that
      it lists. */
  lemma SearchAndListAdmitTheSameUsers(st: Store, t: Auth.Token, q: Query, u: User)
    requires SearchUsersRequest(t, q).Ok?
    ensures ListUsersRequest(t, q) == SearchUsersRequest(t, q)
    ensures Search.Matches(DocumentFromUser(u), SearchFilter(SearchUsersRequest(t, q).value)) <==> Listed(ListUsersRequest(t, q).value, u)
    ensures u in AllUsers(st) ==>
      (u in GetUsers(st, t, q, false).value <==> Search.Matches(DocumentFromUser(u), SearchFilter(SearchUsersRequest(t, q).value)))
    ensures u in AllUsers(st) && !u.isActive && q == map[] ==>
      u in GetUsers(st, t, q, true).value && !Search.Matches(DocumentFromUser(u), SearchFilter(SearchUsersRequest(t, q).value))
  {
    SearchAgreesWithList(u, SearchUsersRequest(t, q).value);
  }

  // ---------------------------------------------------------------------------
  // Changes

  /** `updateUserRequest`. */
  datatype UpdateRequest = UpdateRequest(id: Id, username: string, firstName: string, lastName: string, isAdmin: bool, isActive: bool)

  /** An update the store is asked for, with whether it may change the admin
      flag and the active flag. */
  datatype Update = Update(user: User, allowAdminChange: bool, allowActiveStateChange: bool)

  /** `handleUpdateUserByID` up to the store call: the body's id must be the
      path's text, another user needs the update-user permission, and the
      allowances are the set-admin and set-active-state permissions. */
  function UpdateUserRequest(t: Auth.Token, pathId: string, body: Option<UpdateRequest>): (r: Result<Decision<Update>>)
    ensures !t.isAuthenticated ==> r == Err(Unauthorized)
    ensures t.isAuthenticated && body.None? ==> r == Err(BadInput)
    ensures t.isAuthenticated && body.Some? && body.value.id != pathId ==> r == Err(BadInput)
    ensures r.Ok? <==>
      && t.isAuthenticated && body.Some? && body.value.id == pathId
      && (body.value.id == t.userId || Auth.HasPermission(t, {Auth.UpdateUser}))
    ensures r.Err? && t.isAuthenticated && body.Some? && body.value.id == pathId ==> r.code == Forbidden
    ensures r.Ok? ==>
      var b := body.value;
      var u := User(b.id, b.username, b.firstName, b.lastName, b.isAdmin, b.isActive);
      && (r.value.Accepted? <==> Validate(u) == [])
      && (r.value.Invalid? ==> r.value.report == Validate(u))
      && (r.value.Accepted? ==> r.value.value.user == u)
      && (r.value.Accepted? ==> r.value.value.allowAdminChange == Auth.HasPermission(t, {Auth.SetAdminUser}))
      && (r.value.Accepted? ==> r.value.value.allowActiveStateChange == Auth.HasPermission(t, {Auth.SetUserActiveState}))
  {
    if !t.isAuthenticated then Err(Unauthorized)
    else if body.None? then Err(BadInput)
    else
      var b := body.value;
      if b.id != pathId then Err(BadInput)
      else if t.userId != b.id && !Auth.HasPermission(t, {Auth.UpdateUser}) then Err(Forbidden)
      else
        var u := User(b.id, b.username, b.firstName, b.lastName, b.isAdmin, b.isActive);
        var report := Validate(u);
        if report != [] then Ok(Invalid(report))
        else Ok(Accepted(Update(u, Auth.HasPermission(t, {Auth.SetAdminUser}), Auth.HasPermission(t, {Auth.SetUserActiveState}))))
  }

  /** A path with an upper-case identifier never matches the body's id, which
      is written in lower case. */
  lemma UpperCasePathIsBadInput(t: Auth.Token, b: UpdateRequest)
    requires t.isAuthenticated
    requires b.id == "00000000-0000-0000-0000-00000000000a"
    ensures UpdateUserRequest(t, "00000000-0000-0000-0000-00000000000A", Some(b)) == Err(BadInput)
  {
    assert "00000000-0000-0000-0000-00000000000A"[35] != b.id[35];
  }

  /** A user without any permission may update itself, but neither its admin
      flag nor its active flag. */
  lemma SelfUpdateNeedsNoPermission(t: Auth.Token, b: UpdateRequest)
    requires t.isAuthenticated && !t.isAdmin && t.permissions == {}
    requires b.id == t.userId && b.username != "" && b.firstName != "" && b.lastName != ""
    ensures UpdateUserRequest(t, t.userId, Some(b))
      == Ok(Accepted(Update(User(b.id, b.username, b.firstName, b.lastName, b.isAdmin, b.isActive), false, false)))
  {
  }

  /** An accepted update of a user the store has is read back as requested
      by a caller who may view that user. */
  lemma UpdateThenGet(st: Store, t: Auth.Token, pathId: string, body: Option<UpdateRequest>, up: Update)
    requires UpdateUserRequest(t, pathId, body) == Ok(Accepted(up))
    requires HasUser(st, up.user.id)
    requires up.user.id == t.userId || Auth.HasPermission(t, {Auth.ViewUser})
    ensures UpdateUser(st, up.user).Ok?
    ensures GetUser(UpdateUser(st, up.user).value.0, t, pathId) == Ok(up.user)
  {
    assert up.user.id == pathId;
    ParseUuidOfId(up.user.id);
    var st' := UpdateUser(st, up.user).value.0;
    assert GetUserRequest(t, pathId) == Ok(up.user.id);
    assert UserById(st', up.user.id) == Ok(up.user);
  }

  /** `updateUserPassByUserIDRequest`; the password is plain text. */
  datatype PassRequest = PassRequest(userId: Id, newPass: string)

  /** `handleUpdateUserPassByUserID` up to the store call: the body's id must
      be the path's text and another user's password needs the
      update-user-pass permission. `hashed` is the outcome of hashing the new
      password. */
  function UpdatePassRequest(t: Auth.Token, pathId: string, body: Option<PassRequest>, hashed: Result<string>): (r: Result<(Id, string)>)
    ensures !t.isAuthenticated ==> r == Err(Unauthorized)
    ensures t.isAuthenticated && body.None? ==> r == Err(BadInput)
    ensures t.isAuthenticated && body.Some? && body.value.userId != pathId ==> r == Err(BadInput)
    ensures (&& t.isAuthenticated && body.Some? && body.value.userId == pathId && body.value.userId != t.userId
             && !Auth.HasPermission(t, {Auth.UpdateUserPass})) ==> r == Err(Forbidden)
    ensures r.Ok? <==>
      && t.isAuthenticated && body.Some? && body.value.userId == pathId
      && (body.value.userId == t.userId || Auth.HasPermission(t, {Auth.UpdateUserPass})) && hashed.Ok?
    ensures r.Ok? ==> r.value == (body.value.userId, hashed.value)
  {
    if !t.isAuthenticated then Err(Unauthorized)
    else if body.None? then Err(BadInput)
    else
      var b := body.value;
      if b.userId != pathId then Err(BadInput)
      else if b.userId != t.userId && !Auth.HasPermission(t, {Auth.UpdateUserPass}) then Err(Forbidden)
      else
        var pass :- hashed;
        Ok((b.userId, pass))
  }

  /** A password change through the handler touches only the named user's
      password. */
  lemma PassChangeIsConfined(st: Store, t: Auth.Token, pathId: string, body: Option<PassRequest>, hashed: Result<string>, i: nat)
    requires UpdatePassRequest(t, pathId, body, hashed).Ok?
    requires UpdateUserPass(st, body.value.userId, hashed.value).Ok?
    requires i < |st.rows| && st.rows[i].user.id != t.userId
    requires !Auth.HasPermission(t, {Auth.UpdateUserPass})
    ensures UpdateUserPass(st, body.value.userId, hashed.value).value.rows[i] == st.rows[i]
  {
    var st' := UpdateUserPass(st, body.value.userId, hashed.value).value;
    assert AllUsers(st')[i] == AllUsers(st)[i];
  }

  /** `handleDeleteUserByID` up to the store call: the id is parsed first and
      setting any user inactive, oneself included, needs the
      set-active-state permission. */
  function DeleteUserRequest(t: Auth.Token, idText: string): (r: Result<Id>)
    ensures !t.isAuthenticated ==> r == Err(Unauthorized)
    ensures t.isAuthenticated && ParseUuid(idText).None? ==> r == Err(BadInput)
    ensures r.Ok? <==> Auth.HasPermission(t, {Auth.SetUserActiveState}) && ParseUuid(idText).Some?
    ensures r.Ok? ==> Some(r.value) == ParseUuid(idText)
    ensures r.Err? && t.isAuthenticated && ParseUuid(idText).Some? ==> r.code == Forbidden
  {
    if !t.isAuthenticated then Err(Unauthorized)
    else match ParseUuid(idText)
      case None => Err(BadInput)
      case Some(id) =>
        if !Auth.HasPermission(t, {Auth.SetUserActiveState}) then Err(Forbidden)
        else Ok(id)
  }

  /** Reading oneself needs no permission; setting oneself inactive does. */
  lemma SelfAccessRules(t: Auth.Token)
    requires t.isAuthenticated && !t.isAdmin && t.permissions == {}
    ensures GetUserRequest(t, t.userId) == Ok(t.userId)
    ensures DeleteUserRequest(t, t.userId) == Err(Forbidden)
  {
    ParseUuidOfId(t.userId);
  }
}
