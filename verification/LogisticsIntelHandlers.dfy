/** The HTTP side of intel in the logistics service
    (logistics-svc/endpoints/intel_handlers.go): the public intel
    representation, its conversion from and to the store, the query filters
    and the decisions the handlers take before and after calling the
    controller. */
module LogisticsIntelHandlers {
  import opened Common
  import opened Json
  import opened Search
  import opened LogisticsIntel
  import opened HttpQuery
  import Auth
  import IntelContent
  import LogisticsIntelController

  // ---------------------------------------------------------------------------
  // Types and content

  /** `storeIntelTypeFromPublic`: an unknown public type is bad input. */
  function StoreIntelTypeFromPublic(p: string): (r: Result<string>)
    ensures r.Ok? <==> p in IntelContent.KnownTypes
    ensures r.Err? ==> r.code == BadInput
  {
    if p == IntelContent.TypeAnalogRadioMessage then Ok(IntelContent.TypeAnalogRadioMessage)
    else if p == IntelContent.TypePlaintextMessage then Ok(IntelContent.TypePlaintextMessage)
    else Err(BadInput)
  }

  /** `publicIntelTypeFromStore`: an unknown store type is an internal error. */
  function PublicIntelTypeFromStore(s: string): (r: Result<string>)
    ensures r.Ok? <==> s in IntelContent.KnownTypes
    ensures r.Err? ==> r.code == Internal
  {
    if s == IntelContent.TypeAnalogRadioMessage then Ok(IntelContent.TypeAnalogRadioMessage)
    else if s == IntelContent.TypePlaintextMessage then Ok(IntelContent.TypePlaintextMessage)
    else Err(Internal)
  }

  /** The two type maps are inverse to each other. */
  lemma IntelTypeMapsAreInverse(p: string, s: string)
    ensures StoreIntelTypeFromPublic(p).Ok? ==> PublicIntelTypeFromStore(StoreIntelTypeFromPublic(p).value) == Ok(p)
    ensures PublicIntelTypeFromStore(s).Ok? ==> StoreIntelTypeFromPublic(PublicIntelTypeFromStore(s).value) == Ok(s)
  {
  }

  // ---------------------------------------------------------------------------
  // Public records

  datatype PublicCreateIntel = PublicCreateIntel(
    operation: Id,
    intelType: string,
    content: Raw,
    importance: int,
    initialDeliverTo: seq<Id>)

  datatype PublicIntel = PublicIntel(
    id: Id,
    createdAt: Time,
    createdBy: Id,
    operation: Id,
    intelType: string,
    content: Raw,
    searchText: Option<string>,
    importance: int,
    isValid: bool)

  /** `storeCreateIntelFromPublic`: an unknown type is bad input; content that
      does not decode as the record of its type is reported by the content
      mapper as an internal error. The search text is left unset for the
      controller to fill in. */
  function StoreCreateIntelFromPublic(createdBy: Id, p: PublicCreateIntel): (r: Result<CreateIntel>)
    ensures p.intelType !in IntelContent.KnownTypes ==> r == Err(BadInput)
    ensures r.Ok? <==> p.intelType in IntelContent.KnownTypes && IntelContent.DecodeContent(p.intelType, p.content).Ok?
    ensures r.Err? && p.intelType in IntelContent.KnownTypes ==> r.code == Internal
    ensures r.Ok? ==>
      && r.value.createdBy == createdBy && r.value.operation == p.operation && r.value.intelType == p.intelType
      && r.value.importance == p.importance && r.value.initialDeliverTo == p.initialDeliverTo
      && r.value.searchText.None?
      && IntelContent.DecodeContent(r.value.intelType, r.value.content) == IntelContent.DecodeContent(p.intelType, p.content)
  {
    var intelType :- StoreIntelTypeFromPublic(p.intelType);
    var content :- IntelContent.MapContent(p.intelType, p.content);
    Ok(CreateIntel(createdBy, p.operation, intelType, Doc(content), None, p.importance, p.initialDeliverTo))
  }

  /** `publicIntelFromStore`: unknown types and undecodable content are
      internal errors. */
  function PublicIntelFromStore(s: Intel): (r: Result<PublicIntel>)
    ensures r.Ok? <==> s.intelType in IntelContent.KnownTypes && IntelContent.DecodeContent(s.intelType, s.content).Ok?
    ensures r.Err? ==> r.code == Internal
    ensures r.Ok? ==>
      && r.value.id == s.id && r.value.createdAt == s.createdAt && r.value.createdBy == s.createdBy
      && r.value.operation == s.operation && r.value.intelType == s.intelType && r.value.searchText == s.searchText
      && r.value.importance == s.importance && r.value.isValid == s.isValid
      && IntelContent.DecodeContent(r.value.intelType, r.value.content) == IntelContent.DecodeContent(s.intelType, s.content)
  {
    var intelType :- PublicIntelTypeFromStore(s.intelType);
    var content :- IntelContent.MapContent(s.intelType, s.content);
    Ok(PublicIntel(s.id, s.createdAt, s.createdBy, s.operation, intelType, Doc(content), s.searchText, s.importance, s.isValid))
  }

  /** Whatever a client creates reads back with its type and the content
      record it sent: store and public representation carry the same data. */
  lemma CreatedIntelReadsBack(createdBy: Id, p: PublicCreateIntel, newId: Id, now: Time, st: LogisticsIntel.Store)
    requires StoreCreateIntelFromPublic(createdBy, p).Ok? && !HasIntel(st.intel, newId)
    ensures var created := Create(st, StoreCreateIntelFromPublic(createdBy, p).value, newId, now).0;
      && PublicIntelFromStore(created).Ok?
      && PublicIntelFromStore(created).value.intelType == p.intelType
      && PublicIntelFromStore(created).value.operation == p.operation
      && PublicIntelFromStore(created).value.createdBy == createdBy
      && IntelContent.DecodeContent(p.intelType, PublicIntelFromStore(created).value.content)
         == IntelContent.DecodeContent(p.intelType, p.content)
  {
  }

  /** The public forms of a list, all or nothing. */
  function PublicIntelsFromStore(rows: seq<Intel>): (r: Result<seq<PublicIntel>>)
    ensures r.Ok? <==> forall k :: 0 <= k < |rows| ==> PublicIntelFromStore(rows[k]).Ok?
    ensures r.Err? ==> r.code == Internal
    ensures r.Ok? ==> |r.value| == |rows| && forall k :: 0 <= k < |rows| ==> Ok(r.value[k]) == PublicIntelFromStore(rows[k])
  {
    if |rows| == 0 then Ok([])
    else
      var head :- PublicIntelFromStore(rows[0]);
      var rest :- PublicIntelsFromStore(rows[1..]);
      Ok([head] + rest)
  }

  // ---------------------------------------------------------------------------
  // Query filters

  const QueryCreatedBy: string := "created_by"
  const QueryOperation: string := "operation"
  const QueryIntelType: string := "intel_type"
  const QueryMinImportance: string := "min_importance"
  const QueryIncludeInvalid: string := "include_invalid"
  const QueryOneOfDeliveryForEntries: string := "one_of_delivery_for_entries"
  const QueryOneOfDeliveredToEntries: string := "one_of_delivered_to_entries"

  function KnownIntelType(t: string): Option<string> {
    if t in IntelContent.KnownTypes then Some(t) else None
  }

  /** `intelFiltersFromRequest`. The JSON text of the entry lists is read by
      `parseJson`. Every key is independent: a key that is absent or empty
      leaves its filter unset, and any malformed value is bad input. */
  function IntelFiltersFromRequest(q: Query, parseJson: string -> Raw): (r: Result<IntelFilters>)
    ensures r.Err? ==> r.code == BadInput
    ensures r.Ok? <==>
      && (Get(q, QueryCreatedBy) == "" || ParseUuid(Get(q, QueryCreatedBy)).Some?)
      && (Get(q, QueryOperation) == "" || ParseUuid(Get(q, QueryOperation)).Some?)
      && (Get(q, QueryIntelType) == "" || Get(q, QueryIntelType) in IntelContent.KnownTypes)
      && (Get(q, QueryMinImportance) == "" || ParseInt(Get(q, QueryMinImportance)).Some?)
      && (Get(q, QueryIncludeInvalid) == "" || ParseBool(Get(q, QueryIncludeInvalid)).Some?)
      && (Get(q, QueryOneOfDeliveryForEntries) == "" || IdList(parseJson(Get(q, QueryOneOfDeliveryForEntries))).Some?)
      && (Get(q, QueryOneOfDeliveredToEntries) == "" || IdList(parseJson(Get(q, QueryOneOfDeliveredToEntries))).Some?)
    ensures r.Ok? ==>
      && (r.value.createdBy.Some? <==> Get(q, QueryCreatedBy) != "")
      && (r.value.createdBy.Some? ==> r.value.createdBy == ParseUuid(Get(q, QueryCreatedBy)))
      && (r.value.operation.Some? <==> Get(q, QueryOperation) != "")
      && (r.value.operation.Some? ==> r.value.operation == ParseUuid(Get(q, QueryOperation)))
      && (r.value.intelType.Some? <==> Get(q, QueryIntelType) != "")
      && (r.value.intelType.Some? ==> r.value.intelType.value == Get(q, QueryIntelType))
      && (r.value.minImportance.Some? <==> Get(q, QueryMinImportance) != "")
      && (r.value.minImportance.Some? ==> r.value.minImportance == ParseInt(Get(q, QueryMinImportance)))
      && (r.value.includeInvalid.Some? <==> Get(q, QueryIncludeInvalid) != "")
      && (r.value.includeInvalid.Some? ==> r.value.includeInvalid == ParseBool(Get(q, QueryIncludeInvalid)))
      && (Get(q, QueryOneOfDeliveryForEntries) == "" ==> r.value.oneOfDeliveryForEntries == [])
      && (Get(q, QueryOneOfDeliveryForEntries) != "" ==>
            Some(r.value.oneOfDeliveryForEntries) == IdList(parseJson(Get(q, QueryOneOfDeliveryForEntries))))
      && (Get(q, QueryOneOfDeliveredToEntries) == "" ==> r.value.oneOfDeliveredToEntries == [])
      && (Get(q, QueryOneOfDeliveredToEntries) != "" ==>
            Some(r.value.oneOfDeliveredToEntries) == IdList(parseJson(Get(q, QueryOneOfDeliveredToEntries))))
  {
    var createdBy :- OptionalFilter(Get(q, QueryCreatedBy), ParseUuid);
    var operation :- OptionalFilter(Get(q, QueryOperation), ParseUuid);
    var intelType :- OptionalFilter(Get(q, QueryIntelType), KnownIntelType);
    var minImportance :- OptionalFilter(Get(q, QueryMinImportance), ParseInt);
    var includeInvalid :- OptionalFilter(Get(q, QueryIncludeInvalid), ParseBool);
    var deliveryFor :- OptionalFilter(Get(q, QueryOneOfDeliveryForEntries), (text: string) => IdList(parseJson(text)));
    var deliveredTo :- OptionalFilter(Get(q, QueryOneOfDeliveredToEntries), (text: string) => IdList(parseJson(text)));
    Ok(IntelFilters(createdBy, operation, intelType, minImportance, includeInvalid,
                    if deliveryFor.Some? then deliveryFor.value else [],
                    if deliveredTo.Some? then deliveredTo.value else []))
  }

  /** A request without query parameters lists without filters. */
  lemma EmptyQueryHasNoFilters(parseJson: string -> Raw)
    ensures IntelFiltersFromRequest(map[], parseJson) == Ok(NoFilters)
  {
  }

  /** The query spelling of filters the handler reads back unchanged (for
      the scalar filters; entry lists go through the JSON reader). */
  function QueryOfFilters(createdBy: Option<Id>, operation: Option<Id>, includeInvalid: Option<bool>): (q: Query)
    ensures createdBy.Some? <==> QueryCreatedBy in q
    ensures operation.Some? <==> QueryOperation in q
    ensures includeInvalid.Some? <==> QueryIncludeInvalid in q
    ensures q.Keys <= {QueryCreatedBy, QueryOperation, QueryIncludeInvalid}
  {
    var q1: Query := if createdBy.Some? then map[QueryCreatedBy := createdBy.value] else map[];
    var q2: Query := if operation.Some? then q1[QueryOperation := operation.value] else q1;
    if includeInvalid.Some? then q2[QueryIncludeInvalid := FormatBool(includeInvalid.value)] else q2
  }

  /** Writing filters as a query and reading them back gives the filters. */
  lemma QueryOfFiltersRoundTrip(createdBy: Option<Id>, operation: Option<Id>, includeInvalid: Option<bool>, parseJson: string -> Raw)
    ensures IntelFiltersFromRequest(QueryOfFilters(createdBy, operation, includeInvalid), parseJson)
      == Ok(NoFilters.(createdBy := createdBy, operation := operation, includeInvalid := includeInvalid))
  {
    var q := QueryOfFilters(createdBy, operation, includeInvalid);
    if createdBy.Some? {
      ParseUuidOfId(createdBy.value);
      assert createdBy.value != "";
    }
    if operation.Some? {
      ParseUuidOfId(operation.value);
      assert operation.value != "";
    }
    if includeInvalid.Some? {
      ParseFormatBool(includeInvalid.value);
    }
  }

  // ---------------------------------------------------------------------------
  // Handlers

  /** `handleCreateIntel` up to the controller call: the create-intel
      permission is checked first, a body that does not decode is bad input,
      then the intel is converted and validated. `typeAndContent` is the
      report of the entity's type and content check. */
  method CreateIntelRequest(t: Auth.Token, body: Option<PublicCreateIntel>, typeAndContent: Result<seq<string>>)
    returns (r: Result<Decision<CreateIntel>>)
    ensures !t.isAuthenticated ==> r == Err(Unauthorized)
    ensures t.isAuthenticated && !Auth.HasPermission(t, {Auth.CreateIntel}) ==> r == Err(Forbidden)
    ensures Auth.HasPermission(t, {Auth.CreateIntel}) && body.None? ==> r == Err(BadInput)
    ensures r.Ok? <==>
      Auth.HasPermission(t, {Auth.CreateIntel}) && body.Some?
      && StoreCreateIntelFromPublic(t.userId, body.value).Ok? && typeAndContent.Ok?
    ensures r.Ok? ==>
      var c := StoreCreateIntelFromPublic(t.userId, body.value).value;
      && (r.value.Accepted? <==> typeAndContent.value == [] && NoDuplicates(c.initialDeliverTo))
      && (r.value.Accepted? ==> r.value.value == c)
      && (r.value.Invalid? ==> r.value.report == typeAndContent.value + Map(DuplicateMessage, Repeats(c.initialDeliverTo)))
  {
    var allowed := Auth.AssurePermission(t, {Auth.CreateIntel});
    if allowed.Err? {
      return Err(allowed.code);
    }
    if body.None? {
      return Err(BadInput);
    }
    var converted := StoreCreateIntelFromPublic(t.userId, body.value);
    if converted.Err? {
      return Err(converted.code);
    }
    var c := converted.value;
    var report := Validate(c, typeAndContent);
    if report.Err? {
      return Err(report.code);
    }
    ValidateReportsDuplicates(c);
    if report.value == [] {
      return Ok(Accepted(c));
    }
    return Ok(Invalid(report.value));
  }

  /** How `handleCreateIntel` answers a created intel: 201 with its public
      form, or 200 without body when that form cannot be built. */
  datatype CreatedResponse = Created(intel: PublicIntel) | OkWithoutBody

  function CreatedResponseOf(created: Intel): (r: CreatedResponse)
    ensures r.Created? <==> PublicIntelFromStore(created).Ok?
    ensures r.Created? ==> r.intel == PublicIntelFromStore(created).value
  {
    match PublicIntelFromStore(created)
    case Ok(p) => Created(p)
    case Err(_) => OkWithoutBody
  }

  /** `handleInvalidateIntelByID` up to the controller call: the permission is
      checked before the id is parsed. */
  function InvalidateIntelRequest(t: Auth.Token, idText: string): (r: Result<Id>)
    ensures !t.isAuthenticated ==> r == Err(Unauthorized)
    ensures t.isAuthenticated && !Auth.HasPermission(t, {Auth.InvalidateIntel}) ==> r == Err(Forbidden)
    ensures r.Ok? <==> Auth.HasPermission(t, {Auth.InvalidateIntel}) && ParseUuid(idText).Some?
    ensures r.Ok? ==> Some(r.value) == ParseUuid(idText)
    ensures r.Err? && Auth.HasPermission(t, {Auth.InvalidateIntel}) ==> r.code == BadInput
  {
    var _ :- Auth.AssurePermission(t, {Auth.InvalidateIntel});
    match ParseUuid(idText)
    case None => Err(BadInput)
    case Some(id) => Ok(id)
  }

  /** `handleGetIntelByID` end to end: unauthorized for anonymous callers,
      bad input for a malformed id; callers without view-any are limited to
      intel delivered to one of their entries. */
  function GetIntelByID(s: LogisticsIntelController.State, t: Auth.Token, idText: string): (r: Result<PublicIntel>)
    ensures !t.isAuthenticated ==> r == Err(Unauthorized)
    ensures t.isAuthenticated && ParseUuid(idText).None? ==> r == Err(BadInput)
    ensures r.Ok? ==>
      && Some(r.value.id) == ParseUuid(idText)
      && (Auth.HasPermission(t, {Auth.ViewAnyIntel})
          || t.userId in LogisticsIntelController.UsersWithDeliveriesByIntel(s, r.value.id))
  {
    if !t.isAuthenticated then Err(Unauthorized)
    else match ParseUuid(idText)
      case None => Err(BadInput)
      case Some(id) =>
        var limit := Auth.LimitToUserUnless(t, Auth.ViewAnyIntel);
        var intel :- LogisticsIntelController.IntelByID(s, id, limit);
        PublicIntelFromStore(intel)
  }

  /** A caller without view-any never reads intel that was not delivered to
      one of their address-book entries. */
  lemma GetIntelByIDIsLimited(s: LogisticsIntelController.State, t: Auth.Token, idText: string)
    requires !Auth.HasPermission(t, {Auth.ViewAnyIntel})
    requires GetIntelByID(s, t, idText).Ok?
    ensures var id := GetIntelByID(s, t, idText).value.id;
      exists e :: e in LogisticsIntelController.UserEntryIds(s.book, t.userId) && e in DeliveryForEntries(s.intel, id)
  {
    var id := GetIntelByID(s, t, idText).value.id;
    LogisticsIntelController.ByIDAgreesWithLimit(s, id, t.userId);
  }

  /** `handleGetAllIntel` end to end (pagination aside): `userEntries` is the
      store's listing of the caller's entries. */
  function GetAllIntel(s: LogisticsIntelController.State, t: Auth.Token, q: Query, parseJson: string -> Raw,
                       userEntries: seq<Id>): (r: Result<seq<PublicIntel>>)
    requires LogisticsIntelController.ListsUserEntries(s, t.userId, userEntries)
    ensures !t.isAuthenticated ==> r == Err(Unauthorized)
    ensures t.isAuthenticated && IntelFiltersFromRequest(q, parseJson).Err? ==> r == Err(BadInput)
    ensures r.Ok? ==> IntelFiltersFromRequest(q, parseJson).Ok?
    ensures r.Ok? && Auth.HasPermission(t, {Auth.ViewAnyIntel}) ==>
      Ok(r.value) == PublicIntelsFromStore(IntelList(s.intel, IntelFiltersFromRequest(q, parseJson).value))
  {
    if !t.isAuthenticated then Err(Unauthorized)
    else
      var filters :- IntelFiltersFromRequest(q, parseJson);
      var limit := Auth.LimitToUserUnless(t, Auth.ViewAnyIntel);
      PublicIntelsFromStore(LogisticsIntelController.Intel(s, filters, limit, userEntries))
  }

  /** A caller without view-any only lists intel delivered to one of their
      entries, which is intel they may also read by its id. */
  lemma GetAllIntelIsLimited(s: LogisticsIntelController.State, t: Auth.Token, q: Query, parseJson: string -> Raw,
                             userEntries: seq<Id>, k: int)
    requires LogisticsIntelController.ListsUserEntries(s, t.userId, userEntries)
    requires !Auth.HasPermission(t, {Auth.ViewAnyIntel})
    requires GetAllIntel(s, t, q, parseJson, userEntries).Ok?
    requires 0 <= k < |GetAllIntel(s, t, q, parseJson, userEntries).value|
    ensures SharesEntry(userEntries, DeliveryForEntries(s.intel, GetAllIntel(s, t, q, parseJson, userEntries).value[k].id))
    ensures t.userId in LogisticsIntelController.UsersWithDeliveriesByIntel(s, GetAllIntel(s, t, q, parseJson, userEntries).value[k].id)
  {
    var filters := IntelFiltersFromRequest(q, parseJson).value;
    var rows := LogisticsIntelController.Intel(s, filters, Some(t.userId), userEntries);
    assert PublicIntelFromStore(rows[k]).Ok?;
    LogisticsIntelController.LimitedListShowsOnlyDeliveredIntel(s, filters, t.userId, userEntries, rows[k]);
  }

  /** `handleSearchIntel` end to end: the controller's hits mapped to their
      public form; a hit that does not map is an internal error. */
  function SearchIntel(s: LogisticsIntelController.State, t: Auth.Token, q: Query, parseJson: string -> Raw,
                       userEntries: seq<Id>, answer: Result<SearchResult<Id>>): (r: Result<SearchResult<PublicIntel>>)
    requires LogisticsIntelController.ListsUserEntries(s, t.userId, userEntries)
    ensures !t.isAuthenticated ==> r == Err(Unauthorized)
    ensures t.isAuthenticated && IntelFiltersFromRequest(q, parseJson).Err? ==> r == Err(BadInput)
    ensures r.Ok? && !Auth.HasPermission(t, {Auth.ViewAnyIntel}) ==>
      forall k :: 0 <= k < |r.value.hits| ==> SharesEntry(userEntries, DeliveryForEntries(s.intel, r.value.hits[k].id))
    ensures r.Ok? && !Auth.HasPermission(t, {Auth.ViewAnyIntel}) ==>
      forall k :: 0 <= k < |r.value.hits| ==> t.userId in LogisticsIntelController.UsersWithDeliveriesByIntel(s, r.value.hits[k].id)
  {
    if !t.isAuthenticated then Err(Unauthorized)
    else
      var filters :- IntelFiltersFromRequest(q, parseJson);
      var limit := Auth.LimitToUserUnless(t, Auth.ViewAnyIntel);
      var result :- LogisticsIntelController.SearchIntel(s, filters, limit, userEntries, answer);
      var hits :- PublicIntelsFromStore(result.hits);
      Ok(ResultFromResult(result, hits))
  }
}
