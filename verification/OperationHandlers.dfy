/** The HTTP side of the operation service
    (operation-svc/endpoints/operation_handlers.go): the filters read from
    the query, the public representation of an operation, and what each
    handler checks before it calls the store. */
module OperationHandlers {
  import opened Common
  import opened HttpQuery
  import opened Operations
  import Auth
  import Search

  // ---------------------------------------------------------------------------
  // Query filters

  const QueryOnlyOngoing: string := "only_ongoing"
  const QueryIncludeArchived: string := "include_archived"
  const QueryForUser: string := "for_user"

  /** `operationFiltersFromRequest`: absent parameters leave the flags false
      and the user unset; a malformed flag or user id is bad input. */
  function FiltersFromQuery(q: Query): (r: Result<Filters>)
    ensures Get(q, QueryOnlyOngoing) == "" && Get(q, QueryIncludeArchived) == "" && Get(q, QueryForUser) == "" ==>
      r == Ok(Filters(false, false, None))
    ensures r.Err? <==>
      || (Get(q, QueryOnlyOngoing) != "" && ParseBool(Get(q, QueryOnlyOngoing)).None?)
      || (Get(q, QueryIncludeArchived) != "" && ParseBool(Get(q, QueryIncludeArchived)).None?)
      || (Get(q, QueryForUser) != "" && ParseUuid(Get(q, QueryForUser)).None?)
    ensures r.Err? ==> r.code == BadInput
    ensures r.Ok? ==> (r.value.onlyOngoing <==> ParseBool(Get(q, QueryOnlyOngoing)) == Some(true))
    ensures r.Ok? ==> (r.value.includeArchived <==> ParseBool(Get(q, QueryIncludeArchived)) == Some(true))
    ensures r.Ok? ==> (r.value.forUser.None? <==> Get(q, QueryForUser) == "")
    ensures r.Ok? && r.value.forUser.Some? ==> r.value.forUser == ParseUuid(Get(q, QueryForUser))
  {
    var onlyOngoing :- FlagFilter(Get(q, QueryOnlyOngoing));
    var includeArchived :- FlagFilter(Get(q, QueryIncludeArchived));
    var forUser :- OptionalFilter(Get(q, QueryForUser), ParseUuid);
    Ok(Filters(onlyOngoing, includeArchived, forUser))
  }

  /** The query parameters a client writes for a filter. */
  function QueryOf(f: Filters): Query {
    map[QueryOnlyOngoing := FormatBool(f.onlyOngoing), QueryIncludeArchived := FormatBool(f.includeArchived)]
    + (if f.forUser.Some? then map[QueryForUser := f.forUser.value] else map[])
  }

  /** Every filter written as query parameters is read back unchanged. */
  lemma FiltersQueryRoundTrip(f: Filters)
    ensures FiltersFromQuery(QueryOf(f)) == Ok(f)
  {
    var q := QueryOf(f);
    assert Get(q, QueryOnlyOngoing) == FormatBool(f.onlyOngoing);
    assert Get(q, QueryIncludeArchived) == FormatBool(f.includeArchived);
    ParseFormatBool(f.onlyOngoing);
    ParseFormatBool(f.includeArchived);
    if f.forUser.Some? {
      assert Get(q, QueryForUser) == f.forUser.value;
      ParseUuidOfId(f.forUser.value);
    } else {
      assert Get(q, QueryForUser) == "";
    }
  }

  // ---------------------------------------------------------------------------
  // Public representation

  /** `publicOperation`. */
  datatype PublicOperation = PublicOperation(id: Id, title: string, description: string, start: Time, end: Option<Time>, isArchived: bool)

  /** `publicOperationFromStore`. */
  function PublicFromStore(o: Operation): (p: PublicOperation)
    ensures p.id == o.id && p.title == o.title && p.description == o.description
    ensures p.start == o.start && p.end == o.end && p.isArchived == o.isArchived
  {
    PublicOperation(o.id, o.title, o.description, o.start, o.end, o.isArchived)
  }

  /** `storeOperationFromPublic`. */
  function StoreFromPublic(p: PublicOperation): (o: Operation)
    ensures o.id == p.id && o.title == p.title && o.description == p.description
    ensures o.start == p.start && o.end == p.end && o.isArchived == p.isArchived
  {
    Operation(p.id, p.title, p.description, p.start, p.end, p.isArchived)
  }

  /** The two conversions are mutual inverses. */
  lemma PublicStoreRoundTrip(o: Operation, p: PublicOperation)
    ensures StoreFromPublic(PublicFromStore(o)) == o
    ensures PublicFromStore(StoreFromPublic(p)) == p
  {
  }

  // ---------------------------------------------------------------------------
  // Listing and search

  /** The filters the list and search handlers hand to the store: a caller
      without the view-any-operation permission is limited to their own
      operations, whatever user the query named. */
  function EffectiveFilters(t: Auth.Token, f: Filters): (r: Filters)
    ensures r.onlyOngoing == f.onlyOngoing && r.includeArchived == f.includeArchived
    ensures Auth.HasPermission(t, {Auth.ViewAnyOperation}) ==> r.forUser == f.forUser
    ensures !Auth.HasPermission(t, {Auth.ViewAnyOperation}) ==> r.forUser == Some(t.userId)
  {
    if Auth.HasPermission(t, {Auth.ViewAnyOperation}) then f else f.(forUser := Some(t.userId))
  }

  /** `handleGetOperations` and `handleSearchOperations` up to the store
      call: anonymous callers are unauthorized, the filters are read before
      the permission is looked at. */
  function RetrievalRequest(t: Auth.Token, q: Query): (r: Result<Filters>)
    ensures !t.isAuthenticated ==> r == Err(Unauthorized)
    ensures t.isAuthenticated ==> (r.Ok? <==> FiltersFromQuery(q).Ok?)
    ensures t.isAuthenticated && FiltersFromQuery(q).Err? ==> r == Err(BadInput)
    ensures r.Ok? ==> r.value == EffectiveFilters(t, FiltersFromQuery(q).value)
  {
    if !t.isAuthenticated then Err(Unauthorized)
    else
      var f :- FiltersFromQuery(q);
      Ok(EffectiveFilters(t, f))
  }

  /** `handleGetOperations`, with the database time as an input. */
  function GetOperations(st: Store, t: Auth.Token, q: Query, now: Time): (r: Result<seq<PublicOperation>>)
    ensures r.Ok? <==> RetrievalRequest(t, q).Ok?
    ensures r.Err? ==> r == Err(RetrievalRequest(t, q).code)
    ensures r.Ok? ==> forall p :: p in r.value <==> exists o :: o in ListOperations(st, RetrievalRequest(t, q).value, now) && p == PublicFromStore(o)
  {
    var f :- RetrievalRequest(t, q);
    var ops := ListOperations(st, f, now);
    var ps := Map(PublicFromStore, ops);
    assert forall p :: p in ps <==> exists o :: o in ops && p == PublicFromStore(o) by {
      forall p | p in ps ensures exists o :: o in ops && p == PublicFromStore(o) {
        var k :| 0 <= k < |ps| && ps[k] == p;
        assert ops[k] in ops;
      }
      forall o | o in ops ensures PublicFromStore(o) in ps {
        var k :| 0 <= k < |ops| && ops[k] == o;
        assert ps[k] == PublicFromStore(o);
      }
    }
    Ok(ps)
  }

  /** A caller without the view-any-operation permission sees only the
      operations they are a member of, whatever the query says. */
  lemma ListedOperationsAreOwn(st: Store, t: Auth.Token, q: Query, now: Time, p: PublicOperation)
    requires !Auth.HasPermission(t, {Auth.ViewAnyOperation})
    requires GetOperations(st, t, q, now).Ok? && p in GetOperations(st, t, q, now).value
    ensures t.userId in MembersOf(st, p.id)
  {
    var f := RetrievalRequest(t, q).value;
    var o :| o in ListOperations(st, f, now) && p == PublicFromStore(o);
    assert ListQualifies(st, f, now, o);
  }

  /** `handleSearchOperations` on the identifiers the search returned. */
  function SearchOperationsHandler(st: Store, t: Auth.Token, q: Query, ids: Result<Search.SearchResult<Id>>): (r: Result<Search.SearchResult<PublicOperation>>)
    ensures RetrievalRequest(t, q).Err? ==> r == Err(RetrievalRequest(t, q).code)
    ensures RetrievalRequest(t, q).Ok? && ids.Err? ==> r == Err(ids.code)
    ensures r.Ok? ==> ids.Ok? && Search.SameMetadata(ids.value, r.value)
    ensures r.Ok? ==> forall p :: p in r.value.hits ==> StoreFromPublic(p) in st.operations && p.id in ids.value.hits
    ensures r.Ok? && !Auth.HasPermission(t, {Auth.ViewAnyOperation}) ==>
      forall p :: p in r.value.hits ==> t.userId in MembersOf(st, p.id)
  {
    var f :- RetrievalRequest(t, q);
    var res :- SearchOperations(st, f, ids);
    var pub := Search.MapResult(res, PublicFromStore);
    assert forall p :: p in pub.hits ==> exists o :: o in res.hits && p == PublicFromStore(o) by {
      forall p | p in pub.hits ensures exists o :: o in res.hits && p == PublicFromStore(o) {
        var k :| 0 <= k < |pub.hits| && pub.hits[k] == p;
        assert res.hits[k] in res.hits;
      }
    }
    Ok(pub)
  }

  /** The list and the search agree on what a caller may see: for the filters
      both handlers derive, a stored operation is listed exactly when its
      document passes the search filter. */
  lemma SearchAndListAdmitTheSameOperations(st: Store, t: Auth.Token, q: Query, now: Time, o: Operation)
    requires RetrievalRequest(t, q).Ok?
    requires o in st.operations
    ensures var f := RetrievalRequest(t, q).value;
      (Search.Matches(DocumentFromOperation(o, MembersOf(st, o.id)), SearchFilter(f, now))
       <==> o in ListOperations(st, f, now))
  {
    SearchAgreesWithList(st, RetrievalRequest(t, q).value, now, o);
  }

  // ---------------------------------------------------------------------------
  // Single operations

  /** `handleGetOperationByID` up to the store call: any authenticated caller
      may read an operation by a well-formed id. */
  function GetOperationRequest(t: Auth.Token, idText: string): (r: Result<Id>)
    ensures !t.isAuthenticated ==> r == Err(Unauthorized)
    ensures t.isAuthenticated && ParseUuid(idText).None? ==> r == Err(BadInput)
    ensures r.Ok? <==> t.isAuthenticated && ParseUuid(idText).Some?
    ensures r.Ok? ==> Some(r.value) == ParseUuid(idText)
  {
    if !t.isAuthenticated then Err(Unauthorized)
    else match ParseUuid(idText)
      case None => Err(BadInput)
      case Some(id) => Ok(id)
  }

  /** `handleGetOperationByID`. */
  function GetOperation(st: Store, t: Auth.Token, idText: string): (r: Result<PublicOperation>)
    ensures GetOperationRequest(t, idText).Err? ==> r == Err(GetOperationRequest(t, idText).code)
    ensures GetOperationRequest(t, idText).Ok? ==>
      (r.Ok? <==> HasOperation(st, GetOperationRequest(t, idText).value))
    ensures r.Err? && GetOperationRequest(t, idText).Ok? ==> r.code == NotFound
    ensures r.Ok? ==> StoreFromPublic(r.value) in st.operations && Some(r.value.id) == ParseUuid(idText)
  {
    var id :- GetOperationRequest(t, idText);
    var o :- OperationById(st, id);
    Ok(PublicFromStore(o))
  }

  /** `handleCreateOperation` up to the store call: the create-operation
      permission comes first, then the body, then validation. */
  function CreateOperationRequest(t: Auth.Token, body: Option<PublicOperation>): (r: Result<Decision<Operation>>)
    ensures !t.isAuthenticated ==> r == Err(Unauthorized)
    ensures t.isAuthenticated && !Auth.HasPermission(t, {Auth.CreateOperation}) ==> r == Err(Forbidden)
    ensures Auth.HasPermission(t, {Auth.CreateOperation}) && body.None? ==> r == Err(BadInput)
    ensures r.Ok? <==> Auth.HasPermission(t, {Auth.CreateOperation}) && body.Some?
    ensures r.Ok? ==> (r.value.Accepted? <==> Validate(StoreFromPublic(body.value)) == [])
    ensures r.Ok? && r.value.Accepted? ==> r.value.value == StoreFromPublic(body.value)
    ensures r.Ok? && r.value.Invalid? ==> r.value.report == Validate(StoreFromPublic(body.value))
  {
    var _ :- Auth.AssurePermission(t, {Auth.CreateOperation});
    if body.None? then Err(BadInput)
    else
      var o := StoreFromPublic(body.value);
      var report := Validate(o);
      if report != [] then Ok(Invalid(report)) else Ok(Accepted(o))
  }

  /** `handleUpdateOperation` up to the store call: the update-operation
      permission, a well-formed path id, a body, and the body's id equal to
      the path's, in that order, then validation. */
  function UpdateOperationRequest(t: Auth.Token, idText: string, body: Option<PublicOperation>): (r: Result<Decision<Operation>>)
    ensures !t.isAuthenticated ==> r == Err(Unauthorized)
    ensures t.isAuthenticated && !Auth.HasPermission(t, {Auth.UpdateOperation}) ==> r == Err(Forbidden)
    ensures Auth.HasPermission(t, {Auth.UpdateOperation}) && ParseUuid(idText).None? ==> r == Err(BadInput)
    ensures Auth.HasPermission(t, {Auth.UpdateOperation}) && body.Some? && Some(body.value.id) != ParseUuid(idText) ==>
      r == Err(BadInput)
    ensures r.Ok? <==>
      && Auth.HasPermission(t, {Auth.UpdateOperation}) && body.Some?
      && Some(body.value.id) == ParseUuid(idText)
    ensures r.Ok? ==> (r.value.Accepted? <==> Validate(StoreFromPublic(body.value)) == [])
    ensures r.Ok? && r.value.Accepted? ==> r.value.value == StoreFromPublic(body.value)
    ensures r.Ok? && r.value.Invalid? ==> r.value.report == Validate(StoreFromPublic(body.value))
  {
    var _ :- Auth.AssurePermission(t, {Auth.UpdateOperation});
    match ParseUuid(idText)
    case None => Err(BadInput)
    case Some(id) =>
      if body.None? || body.value.id != id then Err(BadInput)
      else
        var o := StoreFromPublic(body.value);
        var report := Validate(o);
        if report != [] then Ok(Invalid(report)) else Ok(Accepted(o))
  }

  /** The path id is compared as a UUID, not as text: an upper-case path
      names the same operation as its lower-case body. */
  lemma UpperCasePathIsSameOperation(t: Auth.Token, p: PublicOperation)
    requires Auth.HasPermission(t, {Auth.UpdateOperation})
    requires p.id == "00000000-0000-0000-0000-00000000000a"
    ensures UpdateOperationRequest(t, "00000000-0000-0000-0000-00000000000A", Some(p)).Ok?
  {
    var up := "00000000-0000-0000-0000-00000000000A";
    assert IsUuidText(up) by {
      assert forall i :: 0 <= i < |up| ==> if IsHyphenPos(i) then up[i] == '-' else IsHex(up[i]);
    }
    var parsed := ParseUuid(up).value;
    forall i | 0 <= i < 36 ensures parsed[i] == p.id[i] {
      if i == 35 { assert LowerHex(up[35]) == 'a'; }
    }
    assert parsed == p.id;
  }

  /** An accepted update of a stored operation is read back as requested. */
  lemma UpdateThenGet(st: Store, t: Auth.Token, idText: string, body: Option<PublicOperation>, o: Operation)
    requires UpdateOperationRequest(t, idText, body) == Ok(Accepted(o))
    requires HasOperation(st, o.id)
    ensures UpdateOperation(st, o).Ok?
    ensures GetOperation(UpdateOperation(st, o).value.0, t, idText) == Ok(body.value)
  {
    var st' := UpdateOperation(st, o).value.0;
    assert GetOperationRequest(t, idText) == Ok(o.id);
    assert OperationById(st', o.id) == Ok(o);
    PublicStoreRoundTrip(o, body.value);
  }

  // ---------------------------------------------------------------------------
  // Members

  /** `handleGetOperationMembersByOperation` up to the store call: the
      view-operation-members permission, then a well-formed id. */
  function GetMembersRequest(t: Auth.Token, idText: string): (r: Result<Id>)
    ensures !t.isAuthenticated ==> r == Err(Unauthorized)
    ensures t.isAuthenticated && !Auth.HasPermission(t, {Auth.ViewOperationMembers}) ==> r == Err(Forbidden)
    ensures Auth.HasPermission(t, {Auth.ViewOperationMembers}) && ParseUuid(idText).None? ==> r == Err(BadInput)
    ensures r.Ok? <==> Auth.HasPermission(t, {Auth.ViewOperationMembers}) && ParseUuid(idText).Some?
    ensures r.Ok? ==> Some(r.value) == ParseUuid(idText)
  {
    var _ :- Auth.AssurePermission(t, {Auth.ViewOperationMembers});
    match ParseUuid(idText)
    case None => Err(BadInput)
    case Some(id) => Ok(id)
  }

  /** `handleUpdateOperationMembersByOperation` up to the store call: the
      update-operation-members permission, a well-formed id, then a body
      holding the member ids. */
  function UpdateMembersRequest(t: Auth.Token, idText: string, body: Option<seq<Id>>): (r: Result<(Id, seq<Id>)>)
    ensures !t.isAuthenticated ==> r == Err(Unauthorized)
    ensures t.isAuthenticated && !Auth.HasPermission(t, {Auth.UpdateOperationMembers}) ==> r == Err(Forbidden)
    ensures Auth.HasPermission(t, {Auth.UpdateOperationMembers}) && ParseUuid(idText).None? ==> r == Err(BadInput)
    ensures r.Ok? <==> Auth.HasPermission(t, {Auth.UpdateOperationMembers}) && ParseUuid(idText).Some? && body.Some?
    ensures r.Ok? ==> Some(r.value.0) == ParseUuid(idText) && r.value.1 == body.value
    ensures r.Err? && Auth.HasPermission(t, {Auth.UpdateOperationMembers}) ==> r.code == BadInput
  {
    var _ :- Auth.AssurePermission(t, {Auth.UpdateOperationMembers});
    match ParseUuid(idText)
    case None => Err(BadInput)
    case Some(id) =>
      if body.None? then Err(BadInput) else Ok((id, body.value))
  }

  /** Neither members permission implies the other: a caller may be allowed
      to replace the members it may not look at. */
  lemma MembersPermissionsAreIndependent(t: Auth.Token, idText: string, members: seq<Id>)
    requires t.isAuthenticated && !t.isAdmin && t.permissions == {Auth.UpdateOperationMembers}
    requires ParseUuid(idText).Some?
    ensures UpdateMembersRequest(t, idText, Some(members)).Ok?
    ensures GetMembersRequest(t, idText) == Err(Forbidden)
  {
  }
}
