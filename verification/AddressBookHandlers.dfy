/** The HTTP side of the address book in the logistics service
    (logistics-svc/endpoints/address_book_handlers.go). The public entry
    carries exactly the fields of the store entry, so the model uses the store
    record for both. */
module AddressBookHandlers {
  import opened Common
  import opened Json
  import opened HttpQuery
  import opened AddressBook
  import Auth
  import AddressBookController
  import Events

  // ---------------------------------------------------------------------------
  // Query filters

  const QueryByUser: string := "by_user"
  const QueryForOperation: string := "for_operation"
  const QueryExcludeGlobal: string := "exclude_global"
  const QueryVisibleBy: string := "visible_by"
  const QueryIncludeForInactiveUsers: string := "include_for_inactive_users"
  const QueryAutoDeliveryEnabled: string := "auto_delivery_enabled"

  /** `addressBookEntryFiltersFromQuery`: every key is optional and any
      malformed value is bad input. */
  function FiltersFromQuery(q: Query): (r: Result<Filters>)
    ensures r.Err? ==> r.code == BadInput
    ensures r.Ok? <==>
      && (Get(q, QueryByUser) == "" || ParseUuid(Get(q, QueryByUser)).Some?)
      && (Get(q, QueryForOperation) == "" || ParseUuid(Get(q, QueryForOperation)).Some?)
      && (Get(q, QueryExcludeGlobal) == "" || ParseBool(Get(q, QueryExcludeGlobal)).Some?)
      && (Get(q, QueryVisibleBy) == "" || ParseUuid(Get(q, QueryVisibleBy)).Some?)
      && (Get(q, QueryIncludeForInactiveUsers) == "" || ParseBool(Get(q, QueryIncludeForInactiveUsers)).Some?)
      && (Get(q, QueryAutoDeliveryEnabled) == "" || ParseBool(Get(q, QueryAutoDeliveryEnabled)).Some?)
    ensures r.Ok? ==>
      && (r.value.byUser.Some? <==> Get(q, QueryByUser) != "")
      && (r.value.byUser.Some? ==> r.value.byUser == ParseUuid(Get(q, QueryByUser)))
      && (r.value.forOperation.Some? <==> Get(q, QueryForOperation) != "")
      && (r.value.forOperation.Some? ==> r.value.forOperation == ParseUuid(Get(q, QueryForOperation)))
      && (r.value.excludeGlobal <==> ParseBool(Get(q, QueryExcludeGlobal)) == Some(true))
      && (r.value.visibleBy.Some? <==> Get(q, QueryVisibleBy) != "")
      && (r.value.visibleBy.Some? ==> r.value.visibleBy == ParseUuid(Get(q, QueryVisibleBy)))
      && (r.value.includeForInactiveUsers <==> ParseBool(Get(q, QueryIncludeForInactiveUsers)) == Some(true))
      && (r.value.autoDeliveryEnabled.Some? <==> Get(q, QueryAutoDeliveryEnabled) != "")
      && (r.value.autoDeliveryEnabled.Some? ==> r.value.autoDeliveryEnabled == ParseBool(Get(q, QueryAutoDeliveryEnabled)))
  {
    var byUser :- OptionalFilter(Get(q, QueryByUser), ParseUuid);
    var forOperation :- OptionalFilter(Get(q, QueryForOperation), ParseUuid);
    var excludeGlobal :- FlagFilter(Get(q, QueryExcludeGlobal));
    var visibleBy :- OptionalFilter(Get(q, QueryVisibleBy), ParseUuid);
    var includeForInactiveUsers :- FlagFilter(Get(q, QueryIncludeForInactiveUsers));
    var autoDeliveryEnabled :- OptionalFilter(Get(q, QueryAutoDeliveryEnabled), ParseBool);
    Ok(Filters(byUser, forOperation, excludeGlobal, visibleBy, includeForInactiveUsers, autoDeliveryEnabled))
  }

  /** A request without query parameters lists without filters. */
  lemma EmptyQueryHasNoFilters()
    ensures FiltersFromQuery(map[]) == Ok(NoFilters)
  {
  }

  /** Filters written as query parameters are read back unchanged. */
  lemma FiltersQueryRoundTrip(byUser: Id, excludeGlobal: bool)
    ensures FiltersFromQuery(map[QueryByUser := byUser, QueryExcludeGlobal := FormatBool(excludeGlobal)])
      == Ok(NoFilters.(byUser := Some(byUser), excludeGlobal := excludeGlobal))
  {
    ParseUuidOfId(byUser);
    assert byUser != "";
    ParseFormatBool(excludeGlobal);
  }

  // ---------------------------------------------------------------------------
  // Reading

  /** `handleGetAddressBookEntryByID` end to end: without view-any the entry
      must be visible to the caller. */
  function GetEntryByID(st: AddressBook.Store, t: Auth.Token, idText: string): (r: Result<Detailed>)
    ensures !t.isAuthenticated ==> r == Err(Unauthorized)
    ensures t.isAuthenticated && ParseUuid(idText).None? ==> r == Err(BadInput)
    ensures r.Ok? ==> ParseUuid(idText).Some? && ParseUuid(idText).value in st.entries && r.value.entry == st.entries[ParseUuid(idText).value]
    ensures r.Ok? ==>
      || Auth.HasPermission(t, {Auth.ViewAnyAddressBookEntry})
      || r.value.entry.user.None?
      || IsUserVisibleBy(st, r.value.entry.user.value, t.userId)
    ensures t.isAuthenticated && Auth.HasPermission(t, {Auth.ViewAnyAddressBookEntry}) && ParseUuid(idText).Some? ==>
      r == EntryById(st, ParseUuid(idText).value, None)
  {
    if !t.isAuthenticated then Err(Unauthorized)
    else
      var visibleBy := Auth.LimitToUserUnless(t, Auth.ViewAnyAddressBookEntry);
      match ParseUuid(idText)
      case None => Err(BadInput)
      case Some(id) => EntryById(st, id, visibleBy)
  }

  /** The filters `handleGetAllAddressBookEntries` and
      `handleSearchAddressBookEntries` pass on: without view-any the caller's
      own visibility replaces any visible-by filter of the query. */
  function ListFilters(t: Auth.Token, q: Query): (r: Result<Filters>)
    ensures !t.isAuthenticated ==> r == Err(Unauthorized)
    ensures t.isAuthenticated ==> (r.Ok? <==> FiltersFromQuery(q).Ok?)
    ensures r.Err? && t.isAuthenticated ==> r.code == BadInput
    ensures r.Ok? && Auth.HasPermission(t, {Auth.ViewAnyAddressBookEntry}) ==> r == FiltersFromQuery(q)
    ensures r.Ok? && !Auth.HasPermission(t, {Auth.ViewAnyAddressBookEntry}) ==>
      r.value == FiltersFromQuery(q).value.(visibleBy := Some(t.userId))
  {
    if !t.isAuthenticated then Err(Unauthorized)
    else
      var filters :- FiltersFromQuery(q);
      if Auth.HasPermission(t, {Auth.ViewAnyAddressBookEntry}) then Ok(filters)
      else Ok(filters.(visibleBy := Some(t.userId)))
  }

  /** `handleGetAllAddressBookEntries` end to end (pagination aside). */
  function GetAllEntries(st: AddressBook.Store, t: Auth.Token, q: Query): (r: Result<set<Detailed>>)
    ensures !t.isAuthenticated ==> r == Err(Unauthorized)
    ensures r.Ok? ==> ListFilters(t, q).Ok? && Ok(r.value) == Entries(st, ListFilters(t, q).value)
  {
    var filters :- ListFilters(t, q);
    Entries(st, filters)
  }

  /** Without view-any a caller only lists global entries and entries of
      users sharing an operation with them. */
  lemma GetAllEntriesIsLimited(st: AddressBook.Store, t: Auth.Token, q: Query, d: Detailed)
    requires !Auth.HasPermission(t, {Auth.ViewAnyAddressBookEntry})
    requires GetAllEntries(st, t, q).Ok? && d in GetAllEntries(st, t, q).value
    ensures d.entry.user.None? || IsUserVisibleBy(st, d.entry.user.value, t.userId)
  {
    var f := ListFilters(t, q).value;
    var id :| id in st.entries && ListQualifies(st, f, st.entries[id]) && DetailedOf(st, st.entries[id]) == Ok(d);
  }

  // ---------------------------------------------------------------------------
  // Changes

  /** `handleCreateAddressBookEntry` up to the controller call: creating a
      global entry or one for another user needs the create-any permission. */
  function CreateEntryRequest(t: Auth.Token, body: Option<Entry>): (r: Result<Entry>)
    ensures !t.isAuthenticated ==> r == Err(Unauthorized)
    ensures t.isAuthenticated && body.None? ==> r == Err(BadInput)
    ensures r.Ok? <==> (&& t.isAuthenticated && body.Some?
                        && (body.value.user == Some(t.userId) || Auth.HasPermission(t, {Auth.CreateAnyAddressBookEntry})))
    ensures r.Err? && t.isAuthenticated && body.Some? ==> r.code == Forbidden
    ensures r.Ok? ==> r.value == body.value
  {
    if !t.isAuthenticated then Err(Unauthorized)
    else if body.None? then Err(BadInput)
    else if body.value.user != Some(t.userId) && !Auth.HasPermission(t, {Auth.CreateAnyAddressBookEntry}) then Err(Forbidden)
    else Ok(body.value)
  }

  /** The checks `handleUpdateAddressBookEntry` makes on its own, as written:
      the id of the path and the body must agree; the limit to the caller's
      entries is dropped by update-any. The user the body assigns is not
      checked. */
  function UpdateEntryRequestAsWritten(t: Auth.Token, idText: string, body: Option<Entry>): (r: Result<(Entry, Option<Id>)>)
    ensures !t.isAuthenticated ==> r == Err(Unauthorized)
    ensures r.Ok? <==> t.isAuthenticated && ParseUuid(idText).Some? && body.Some? && Some(body.value.id) == ParseUuid(idText)
    ensures r.Err? && t.isAuthenticated ==> r.code == BadInput
    ensures r.Ok? ==> r.value.0 == body.value
    ensures r.Ok? ==> r.value.1 == Auth.LimitToUserUnless(t, Auth.UpdateAnyAddressBookEntry)
  {
    if !t.isAuthenticated then Err(Unauthorized)
    else match ParseUuid(idText)
      case None => Err(BadInput)
      case Some(id) =>
        if body.None? || body.value.id != id then Err(BadInput)
        else Ok((body.value, Auth.LimitToUserUnless(t, Auth.UpdateAnyAddressBookEntry)))
  }

  /** `handleUpdateAddressBookEntry` with one more check: a caller limited to
      their own entries may not make an entry global, which they could not
      create either. Handing their entry to another user stays allowed, as
      the handler's test with no permissions expects. */
  function UpdateEntryRequest(t: Auth.Token, idText: string, body: Option<Entry>): (r: Result<(Entry, Option<Id>)>)
    ensures UpdateEntryRequestAsWritten(t, idText, body).Err? ==> r == UpdateEntryRequestAsWritten(t, idText, body)
    ensures UpdateEntryRequestAsWritten(t, idText, body).Ok? ==>
      (r.Ok? <==> Auth.HasPermission(t, {Auth.UpdateAnyAddressBookEntry}) || body.value.user.Some?)
    ensures r.Ok? ==> r == UpdateEntryRequestAsWritten(t, idText, body)
    ensures r.Err? && UpdateEntryRequestAsWritten(t, idText, body).Ok? ==> r.code == Forbidden
  {
    var (update, limit) :- UpdateEntryRequestAsWritten(t, idText, body);
    if limit.Some? && update.user.None? then Err(Forbidden)
    else Ok((update, limit))
  }

  /** The update end to end, as written. */
  function UpdateEntryAsWritten(st: AddressBook.Store, t: Auth.Token, idText: string, body: Option<Entry>): (r: Result<AddressBook.Store>)
    ensures r.Ok? ==> UpdateEntryRequestAsWritten(t, idText, body).Ok?
    ensures r.Ok? ==> Ok(r.value) == Update(st, body.value)
  {
    var (update, limit) :- UpdateEntryRequestAsWritten(t, idText, body);
    var (st2, _) :- AddressBookController.UpdateAddressBookEntry(st, update, limit);
    Ok(st2)
  }

  /** The update end to end with the corrected request check. */
  function UpdateEntry(st: AddressBook.Store, t: Auth.Token, idText: string, body: Option<Entry>): (r: Result<(AddressBook.Store, seq<Events.Outbound>)>)
    ensures r.Ok? ==> UpdateEntryRequest(t, idText, body).Ok?
    ensures r.Ok? ==> Ok(r.value.0) == Update(st, body.value)
    ensures r.Ok? && !Auth.HasPermission(t, {Auth.UpdateAnyAddressBookEntry}) ==>
      && body.value.id in st.entries
      && st.entries[body.value.id].user == Some(t.userId)
      && body.value.user.Some?
  {
    var (update, limit) :- UpdateEntryRequest(t, idText, body);
    AddressBookController.UpdateAddressBookEntry(st, update, limit)
  }

  /** With the corrected check, a caller without update-any changes nothing
      but their own entries: every entry that belonged to another user or to
      no user is the same before and after, and no global entry appears. */
  lemma UpdateKeepsEntriesOfOthers(st: AddressBook.Store, t: Auth.Token, idText: string, body: Option<Entry>, id: Id)
    requires !Auth.HasPermission(t, {Auth.UpdateAnyAddressBookEntry})
    requires UpdateEntry(st, t, idText, body).Ok?
    ensures var st2 := UpdateEntry(st, t, idText, body).value.0;
      && st2.entries.Keys == st.entries.Keys
      && (id in st.entries && st.entries[id].user != Some(t.userId) ==> st2.entries[id] == st.entries[id])
      && (id in st2.entries && st2.entries[id].user.None? ==> st2.entries[id] == st.entries[id])
  {
  }

  /** A caller without any permission hands their own entry to another user,
      in either reading; the update reaches the store limited to the caller. */
  lemma HandOverIsAccepted()
    ensures var t := Auth.Token(IdB, "u", true, false, {});
      var st := AddressBook.Store(map[IdA := Entry(IdA, "l", "", None, Some(IdB))], map[IdB := User(IdB, "u", "", "", true)], map[], {});
      var handed := Entry(IdA, "l", "", None, Some(IdC));
      && UpdateEntryRequest(t, IdA, Some(handed)) == Ok((handed, Some(IdB)))
      && UpdateEntry(st, t, IdA, Some(handed)).Ok?
      && UpdateEntry(st, t, IdA, Some(handed)).value.0.entries[IdA] == handed
      && UpdateEntryAsWritten(st, t, IdA, Some(handed)) == Ok(UpdateEntry(st, t, IdA, Some(handed)).value.0)
  {
    ParseUuidOfId(IdA);
  }

  /** As written, a caller without any permission turns their own entry into
      a global one, which they may not create. */
  lemma UpdateMakesGlobalEntryAsWritten()
    ensures var t := Auth.Token(IdB, "u", true, false, {});
      var st := AddressBook.Store(map[IdA := Entry(IdA, "l", "", None, Some(IdB))], map[IdB := User(IdB, "u", "", "", true)], map[], {});
      var global := Entry(IdA, "l", "", None, None);
      && UpdateEntryAsWritten(st, t, IdA, Some(global)).Ok?
      && UpdateEntryAsWritten(st, t, IdA, Some(global)).value.entries[IdA] == global
      && CreateEntryRequest(t, Some(global)) == Err(Forbidden)
      && UpdateEntry(st, t, IdA, Some(global)) == Err(Forbidden)
  {
    ParseUuidOfId(IdA);
  }

  /** `handleDeleteAddressBookEntryByID` up to the controller call: the entry
      id and the limit, which delete-any drops. */
  function DeleteEntryRequest(t: Auth.Token, idText: string): (r: Result<(Id, Option<Id>)>)
    ensures !t.isAuthenticated ==> r == Err(Unauthorized)
    ensures r.Ok? <==> t.isAuthenticated && ParseUuid(idText).Some?
    ensures r.Err? && t.isAuthenticated ==> r.code == BadInput
    ensures r.Ok? ==> Some(r.value.0) == ParseUuid(idText)
    ensures r.Ok? ==> r.value.1 == Auth.LimitToUserUnless(t, Auth.DeleteAnyAddressBookEntry)
  {
    if !t.isAuthenticated then Err(Unauthorized)
    else match ParseUuid(idText)
      case None => Err(BadInput)
      case Some(id) => Ok((id, Auth.LimitToUserUnless(t, Auth.DeleteAnyAddressBookEntry)))
  }

  /** A caller without delete-any only deletes their own entries. */
  lemma DeleteIsLimited(st: AddressBook.Store, t: Auth.Token, idText: string)
    requires !Auth.HasPermission(t, {Auth.DeleteAnyAddressBookEntry})
    requires DeleteEntryRequest(t, idText).Ok?
    requires var (id, limit) := DeleteEntryRequest(t, idText).value;
      AddressBookController.DeleteAddressBookEntryByID(st, id, limit).Ok?
    ensures var id := DeleteEntryRequest(t, idText).value.0;
      id in st.entries && st.entries[id].user == Some(t.userId)
  {
  }

  // ---------------------------------------------------------------------------
  // Auto-delivery

  /** The handlers around auto-delivery need the manage-intel-delivery
      permission before anything is parsed. */
  function AutoDeliveryEntryRequest(t: Auth.Token, idText: string): (r: Result<Id>)
    ensures !t.isAuthenticated ==> r == Err(Unauthorized)
    ensures t.isAuthenticated && !Auth.HasPermission(t, {Auth.ManageIntelDelivery}) ==> r == Err(Forbidden)
    ensures r.Ok? <==> Auth.HasPermission(t, {Auth.ManageIntelDelivery}) && ParseUuid(idText).Some?
    ensures r.Ok? ==> Some(r.value) == ParseUuid(idText)
  {
    var _ :- Auth.AssurePermission(t, {Auth.ManageIntelDelivery});
    match ParseUuid(idText)
    case None => Err(BadInput)
    case Some(id) => Ok(id)
  }

  /** `handleGetAutoIntelDeliveryEnabledForAddressBookEntry`: the flag as the
      text `true` or `false`. */
  function GetAutoDeliveryEnabled(s: AddressBookController.State, t: Auth.Token, idText: string): (r: Result<string>)
    ensures r.Ok? ==> AutoDeliveryEntryRequest(t, idText).Ok?
    ensures r.Ok? ==> var id := AutoDeliveryEntryRequest(t, idText).value;
      ParseBool(r.value) == Some(id in s.autoDelivery)
  {
    var id :- AutoDeliveryEntryRequest(t, idText);
    var enabled :- AddressBookController.IsAutoIntelDeliveryEnabled(s, id);
    ParseFormatBool(enabled);
    Ok(FormatBool(enabled))
  }

  /** `handleEnableAutoIntelDeliveryForAddressBookEntry` and
      `handleDisableAutoIntelDeliveryForAddressBookEntry`. */
  function SetAutoDeliveryEnabled(s: AddressBookController.State, t: Auth.Token, idText: string, enabled: bool): (r: Result<(AddressBookController.State, seq<Events.Outbound>)>)
    ensures r.Ok? ==> AutoDeliveryEntryRequest(t, idText).Ok?
    ensures r.Ok? ==> r == AddressBookController.SetAutoIntelDeliveryEnabled(s, AutoDeliveryEntryRequest(t, idText).value, enabled)
  {
    var id :- AutoDeliveryEntryRequest(t, idText);
    AddressBookController.SetAutoIntelDeliveryEnabled(s, id, enabled)
  }

  /** Enabling and then reading the flag through the handlers reports
      `true`. */
  lemma EnableThenGetReportsTrue(s: AddressBookController.State, t: Auth.Token, idText: string)
    requires SetAutoDeliveryEnabled(s, t, idText, true).Ok?
    ensures GetAutoDeliveryEnabled(SetAutoDeliveryEnabled(s, t, idText, true).value.0, t, idText) == Ok("true")
  {
  }

  /** `handleSetAddressBookEntriesWithAutoDeliveryEnabled` up to the
      controller call: the body must be a JSON list of ids. */
  function SetEntriesWithAutoDeliveryRequest(t: Auth.Token, body: Raw): (r: Result<seq<Id>>)
    ensures !t.isAuthenticated ==> r == Err(Unauthorized)
    ensures t.isAuthenticated && !Auth.HasPermission(t, {Auth.ManageIntelDelivery}) ==> r == Err(Forbidden)
    ensures r.Ok? <==> Auth.HasPermission(t, {Auth.ManageIntelDelivery}) && IdList(body).Some?
    ensures r.Ok? ==> Some(r.value) == IdList(body)
    ensures r.Err? && Auth.HasPermission(t, {Auth.ManageIntelDelivery}) ==> r.code == BadInput
  {
    var _ :- Auth.AssurePermission(t, {Auth.ManageIntelDelivery});
    match IdList(body)
    case None => Err(BadInput)
    case Some(ids) => Ok(ids)
  }

  /** A marshalled id list is accepted as it is. */
  lemma SetEntriesWithAutoDeliveryAcceptsIdArray(t: Auth.Token, ids: seq<Id>)
    requires Auth.HasPermission(t, {Auth.ManageIntelDelivery})
    ensures SetEntriesWithAutoDeliveryRequest(t, Doc(IdArray(ids))) == Ok(ids)
  {
    IdsOfIdArray(ids);
  }
}
