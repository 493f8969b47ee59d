/** The HTTP side of the intelligence service
    (intelligence-svc/endpoints/intel_handlers.go): the public intel
    representation, its conversion from and to the store, and the decisions
    the handlers take before and after calling the store. */
module IntelligenceHandlers {
  import opened Common
  import Json
  import Auth
  import opened IntelligenceStore

  // ---------------------------------------------------------------------------
  // Types

  const PublicTypePlaintextMessage: string := "plaintext-message"

  /** `publicIntelTypeFromStore`: an unknown store type is an internal error. */
  function PublicIntelTypeFromStore(s: string): (r: Result<string>)
    ensures r.Ok? <==> s == TypePlaintextMessage
    ensures r.Ok? ==> r.value == PublicTypePlaintextMessage
    ensures r.Err? ==> r.code == Internal
  {
    if s == TypePlaintextMessage then Ok(PublicTypePlaintextMessage) else Err(Internal)
  }

  /** `storeIntelTypeFromPublic`: an unknown public type is bad input. */
  function StoreIntelTypeFromPublic(p: string): (r: Result<string>)
    ensures r.Ok? <==> p == PublicTypePlaintextMessage
    ensures r.Ok? ==> r.value == TypePlaintextMessage
    ensures r.Err? ==> r.code == BadInput
  {
    if p == PublicTypePlaintextMessage then Ok(TypePlaintextMessage) else Err(BadInput)
  }

  /** The two type maps are inverse to each other. */
  lemma IntelTypeMapsAreInverse(p: string, s: string)
    ensures StoreIntelTypeFromPublic(p).Ok? ==> PublicIntelTypeFromStore(StoreIntelTypeFromPublic(p).value) == Ok(p)
    ensures PublicIntelTypeFromStore(s).Ok? ==> StoreIntelTypeFromPublic(PublicIntelTypeFromStore(s).value) == Ok(s)
  {
  }

  // ---------------------------------------------------------------------------
  // Assignments

  datatype PublicIntelAssignment = PublicIntelAssignment(id: Id, to: Id)

  /** `storeIntelAssignmentsFromPublic`: same length and order, id and
      recipient kept, bound to the given intel. */
  function StoreIntelAssignmentsFromPublic(intelId: Id, ps: seq<PublicIntelAssignment>): (r: seq<IntelAssignment>)
    ensures |r| == |ps|
    ensures forall k :: 0 <= k < |ps| ==> r[k].id == ps[k].id && r[k].to == ps[k].to && r[k].intel == intelId
  {
    Map((p: PublicIntelAssignment) => IntelAssignment(p.id, intelId, p.to), ps)
  }

  /** `publicIntelAssignmentsFromStore`: same length and order, id and
      recipient kept. */
  function PublicIntelAssignmentsFromStore(s: seq<IntelAssignment>): (r: seq<PublicIntelAssignment>)
    ensures |r| == |s|
    ensures forall k :: 0 <= k < |s| ==> r[k].id == s[k].id && r[k].to == s[k].to
  {
    Map((a: IntelAssignment) => PublicIntelAssignment(a.id, a.to), s)
  }

  /** The two conversions are inverse to each other, given the intel the
      store's assignments belong to. */
  lemma AssignmentConversionsRoundTrip(intelId: Id, ps: seq<PublicIntelAssignment>, s: seq<IntelAssignment>)
    ensures PublicIntelAssignmentsFromStore(StoreIntelAssignmentsFromPublic(intelId, ps)) == ps
    ensures (forall k :: 0 <= k < |s| ==> s[k].intel == intelId) ==>
      StoreIntelAssignmentsFromPublic(intelId, PublicIntelAssignmentsFromStore(s)) == s
  {
  }

  // ---------------------------------------------------------------------------
  // Intel

  datatype PublicCreateIntel = PublicCreateIntel(
    operation: Id,
    intelType: string,
    content: Json.Raw,
    importance: int,
    assignments: seq<PublicIntelAssignment>)

  datatype PublicIntel = PublicIntel(
    id: Id,
    createdAt: Time,
    createdBy: Id,
    operation: Id,
    intelType: string,
    content: Json.Raw,
    searchText: Option<string>,
    importance: int,
    isValid: bool,
    assignments: seq<PublicIntelAssignment>)

  /** `storeCreateIntelFromPublic`: an unknown type is bad input; the
      assignments are bound to the nil intel, and no search text is set. */
  function StoreCreateIntelFromPublic(createdBy: Id, p: PublicCreateIntel): (r: Result<CreateIntel>)
    ensures r.Ok? <==> p.intelType == PublicTypePlaintextMessage
    ensures r.Err? ==> r.code == BadInput
    ensures r.Ok? ==>
      && r.value.createdBy == createdBy && r.value.operation == p.operation
      && r.value.intelType == TypePlaintextMessage && r.value.content == p.content
      && r.value.importance == p.importance && r.value.searchText.None?
      && r.value.assignments == StoreIntelAssignmentsFromPublic(NilId, p.assignments)
  {
    var intelType :- StoreIntelTypeFromPublic(p.intelType);
    Ok(CreateIntel(createdBy, p.operation, intelType, p.content, None, p.importance,
                   StoreIntelAssignmentsFromPublic(NilId, p.assignments)))
  }

  /** `publicIntelFromStore`: an unknown type is an internal error; all
      other fields are copied. */
  function PublicIntelFromStore(s: Intel): (r: Result<PublicIntel>)
    ensures r.Ok? <==> s.intelType == TypePlaintextMessage
    ensures r.Err? ==> r.code == Internal
    ensures r.Ok? ==>
      && r.value.id == s.id && r.value.createdAt == s.createdAt && r.value.createdBy == s.createdBy
      && r.value.operation == s.operation && r.value.intelType == PublicTypePlaintextMessage
      && r.value.content == s.content && r.value.searchText == s.searchText
      && r.value.importance == s.importance && r.value.isValid == s.isValid
      && r.value.assignments == PublicIntelAssignmentsFromStore(s.assignments)
  {
    var intelType :- PublicIntelTypeFromStore(s.intelType);
    Ok(PublicIntel(s.id, s.createdAt, s.createdBy, s.operation, intelType, s.content, s.searchText,
                   s.importance, s.isValid, PublicIntelAssignmentsFromStore(s.assignments)))
  }

  /** Intel created from a public request reads back in public form with the
      requested type, content and recipients, in order, and the caller as
      creator. */
  lemma CreatedIntelReadsBack(st: Store, createdBy: Id, p: PublicCreateIntel, newId: Id, now: Time, assignmentIds: seq<Id>)
    requires Valid(st) && !HasIntel(st, newId)
    requires StoreCreateIntelFromPublic(createdBy, p).Ok?
    requires |assignmentIds| == |p.assignments|
    ensures var c := StoreCreateIntelFromPublic(createdBy, p).value;
      var r := IntelByID(AfterCreate(st, c, newId, now, assignmentIds), newId);
      && r.Ok? && PublicIntelFromStore(r.value).Ok?
      && var q := PublicIntelFromStore(r.value).value;
      && q.id == newId && q.createdBy == createdBy && q.intelType == p.intelType && q.content == p.content
      && q.isValid && |q.assignments| == |p.assignments|
      && forall k :: 0 <= k < |p.assignments| ==> q.assignments[k].to == p.assignments[k].to
  {
    var c := StoreCreateIntelFromPublic(createdBy, p).value;
    var st' := AfterCreate(st, c, newId, now, assignmentIds);
    assert UniqueIntelIds(st'.intel) by {
      forall j, k | 0 <= j < k < |st'.intel| ensures st'.intel[j].id != st'.intel[k].id {
        if k == |st.intel| { assert st'.intel[j] == st.intel[j]; }
      }
    }
    IntelByIDFindsRow(st', |st.intel|);
    AfterCreateAssignments(st, c, newId, now, assignmentIds, newId);
  }

  // ---------------------------------------------------------------------------
  // Handlers

  /** `handleCreateIntel` up to the store call: the create-intel permission
      is checked first, a body that does not decode is bad input, then the
      intel is converted and validated. `typeAndContent` is the report of the
      entity's type and content check. */
  method CreateIntelRequest(t: Auth.Token, body: Option<PublicCreateIntel>, typeAndContent: Result<seq<string>>)
    returns (r: Result<Decision<CreateIntel>>)
    ensures !t.isAuthenticated ==> r == Err(Unauthorized)
    ensures t.isAuthenticated && !Auth.HasPermission(t, {Auth.CreateIntel}) ==> r == Err(Forbidden)
    ensures Auth.HasPermission(t, {Auth.CreateIntel}) && body.None? ==> r == Err(BadInput)
    ensures (r.Ok? <==>
      Auth.HasPermission(t, {Auth.CreateIntel}) && body.Some?
      && body.value.intelType == PublicTypePlaintextMessage && typeAndContent.Ok?)
    ensures r.Ok? ==>
      var c := StoreCreateIntelFromPublic(t.userId, body.value).value;
      && (r.value.Accepted? <==> typeAndContent.value == [] && NoDuplicates(Recipients(c.assignments)))
      && (r.value.Accepted? ==> r.value.value == c)
  {
    var allowed := Auth.AssurePermission(t, {Auth.CreateIntel});
    if allowed.Err? {
      return Err(allowed.code);
    }
    if body.None? {
      return Err(BadInput);
    }
    var converted := StoreCreateIntelFromPublic(t.userId, body.value);
    if converted.Err? {
      return Err(converted.code);
    }
    var c := converted.value;
    var report := Validate(c, typeAndContent);
    if report.Err? {
      return Err(report.code);
    }
    ValidateReportsDuplicates(c);
    if report.value == [] {
      return Ok(Accepted(c));
    }
    return Ok(Invalid(report.value));
  }

  /** A request assigning the intel twice to the same recipient is
      refused with a report. */
  lemma DuplicateRecipientIsRefused(c: CreateIntel, i: int, j: int)
    requires 0 <= i < j < |c.assignments| && c.assignments[i].to == c.assignments[j].to
    ensures !NoDuplicates(Recipients(c.assignments))
  {
    assert Recipients(c.assignments)[i] == Recipients(c.assignments)[j];
  }

  /** How `handleCreateIntel` answers created intel: 200 with its public
      form, or 200 without body when that form cannot be built. */
  datatype CreatedResponse = Created(intel: PublicIntel) | OkWithoutBody

  function CreatedResponseOf(created: Intel): (r: CreatedResponse)
    ensures r.Created? <==> PublicIntelFromStore(created).Ok?
    ensures r.Created? ==> r.intel == PublicIntelFromStore(created).value
  {
    match PublicIntelFromStore(created)
    case Ok(p) => Created(p)
    case Err(_) => OkWithoutBody
  }

  /** `handleInvalidateIntelByID` up to the store call: the permission is
      checked before the id is parsed. */
  function InvalidateIntelRequest(t: Auth.Token, idText: string): (r: Result<Id>)
    ensures !t.isAuthenticated ==> r == Err(Unauthorized)
    ensures t.isAuthenticated && !Auth.HasPermission(t, {Auth.InvalidateIntel}) ==> r == Err(Forbidden)
    ensures r.Ok? <==> Auth.HasPermission(t, {Auth.InvalidateIntel}) && ParseUuid(idText).Some?
    ensures r.Ok? ==> Some(r.value) == ParseUuid(idText)
    ensures r.Err? && Auth.HasPermission(t, {Auth.InvalidateIntel}) ==> r.code == BadInput
  {
    var _ :- Auth.AssurePermission(t, {Auth.InvalidateIntel});
    match ParseUuid(idText)
    case None => Err(BadInput)
    case Some(id) => Ok(id)
  }

  /** What `handleGetIntelByID` asks the store for. */
  datatype IntelRetrieval = IntelRetrieval(intelId: Id, limitToAssignedUser: Option<Id>)

  /** `handleGetIntelByID` up to the store call: unauthorized for anonymous
      callers, bad input for a malformed id; the retrieval is limited to
      intel assigned to the caller unless the caller may view any intel. */
  function GetIntelByIDRequest(t: Auth.Token, idText: string): (r: Result<IntelRetrieval>)
    ensures !t.isAuthenticated ==> r == Err(Unauthorized)
    ensures t.isAuthenticated && ParseUuid(idText).None? ==> r == Err(BadInput)
    ensures r.Ok? <==> t.isAuthenticated && ParseUuid(idText).Some?
    ensures r.Ok? ==> Some(r.value.intelId) == ParseUuid(idText)
    ensures r.Ok? ==> (r.value.limitToAssignedUser.None? <==> Auth.HasPermission(t, {Auth.ViewAnyIntel}))
    ensures r.Ok? && r.value.limitToAssignedUser.Some? ==> r.value.limitToAssignedUser.value == t.userId
  {
    if !t.isAuthenticated then Err(Unauthorized)
    else match ParseUuid(idText)
      case None => Err(BadInput)
      case Some(id) => Ok(IntelRetrieval(id, Auth.LimitToUserUnless(t, Auth.ViewAnyIntel)))
  }

  /** Granting view-any lifts the limit and changes nothing else. */
  lemma ViewAnyLiftsOnlyTheLimit(t: Auth.Token, idText: string)
    requires t.isAuthenticated && !t.isAdmin && Auth.ViewAnyIntel !in t.permissions
    requires GetIntelByIDRequest(t, idText).Ok?
    ensures var granted := t.(permissions := t.permissions + {Auth.ViewAnyIntel});
      GetIntelByIDRequest(granted, idText) == Ok(GetIntelByIDRequest(t, idText).value.(limitToAssignedUser := None))
  {
  }
}
