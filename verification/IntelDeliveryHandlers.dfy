/** The HTTP side of intel deliveries in the logistics service
    (logistics-svc/endpoints/intel_delivery_handlers.go). */
module IntelDeliveryHandlers {
  import opened Common
  import opened HttpQuery
  import opened IntelDeliveries
  import Auth
  import IntelDeliveryController

  // ---------------------------------------------------------------------------
  // Public records

  /** `publicIntelDeliveryStatusFromStore`: the eight known statuses keep
      their spelling; any other is an internal error. */
  function PublicStatusFromStore(s: string): (r: Result<string>)
    ensures r.Ok? <==> s in KnownStatuses
    ensures r.Ok? ==> r.value == s
    ensures r.Err? ==> r.code == Internal
  {
    if s == StatusOpen then Ok("open")
    else if s == StatusAwaitingDelivery then Ok("awaiting-delivery")
    else if s == StatusDelivering then Ok("delivering")
    else if s == StatusAwaitingAck then Ok("awaiting-ack")
    else if s == StatusDelivered then Ok("delivered")
    else if s == StatusTimeout then Ok("timeout")
    else if s == StatusCanceled then Ok("canceled")
    else if s == StatusFailed then Ok("failed")
    else Err(Internal)
  }

  /** No two store statuses share a public one. */
  lemma PublicStatusIsInjective(s1: string, s2: string)
    requires PublicStatusFromStore(s1).Ok? && PublicStatusFromStore(s2).Ok?
    requires PublicStatusFromStore(s1) == PublicStatusFromStore(s2)
    ensures s1 == s2
  {
  }

  datatype PublicAttempt = PublicAttempt(
    id: Id,
    delivery: Id,
    channel: Id,
    createdAt: Time,
    isActive: bool,
    status: string,
    statusTs: Time,
    note: Option<string>)

  /** `publicIntelDeliveryAttemptFromStore`: every field is copied; only the
      status can fail to map. */
  function PublicAttemptFromStore(a: Attempt): (r: Result<PublicAttempt>)
    ensures r.Ok? <==> a.status in KnownStatuses
    ensures r.Err? ==> r.code == Internal
    ensures r.Ok? ==> r.value == PublicAttempt(a.id, a.delivery, a.channel, a.createdAt, a.isActive, a.status, a.statusTs, a.note)
  {
    var status :- PublicStatusFromStore(a.status);
    Ok(PublicAttempt(a.id, a.delivery, a.channel, a.createdAt, a.isActive, status, a.statusTs, a.note))
  }

  /** The public form holds all the store's data: it converts back. */
  function StoreAttemptFromPublic(p: PublicAttempt): (r: Attempt) {
    Attempt(p.id, p.delivery, p.channel, p.createdAt, p.isActive, p.status, p.statusTs, p.note)
  }

  lemma AttemptConversionRoundTrip(a: Attempt)
    requires a.status in KnownStatuses
    ensures StoreAttemptFromPublic(PublicAttemptFromStore(a).value) == a
  {
  }

  /** The conversion of a list: the first attempt that does not convert
      fails the whole list. */
  function PublicAttemptsFromStore(s: seq<Attempt>): (r: Result<seq<PublicAttempt>>)
    ensures r.Ok? <==> forall i :: 0 <= i < |s| ==> s[i].status in KnownStatuses
    ensures r.Err? ==> r.code == Internal
    ensures r.Ok? ==> |r.value| == |s| && forall i :: 0 <= i < |s| ==> Ok(r.value[i]) == PublicAttemptFromStore(s[i])
  {
    if |s| == 0 then Ok([])
    else
      var head :- PublicAttemptFromStore(s[0]);
      var tail :- PublicAttemptsFromStore(s[1..]);
      assert forall i :: 1 <= i < |s| ==> s[i] == s[1..][i - 1];
      Ok([head] + tail)
  }

  // ---------------------------------------------------------------------------
  // Confirmation and manual attempts

  /** `handleMarkIntelDeliveryAttemptAsDelivered` and
      `handleMarkIntelDeliveryAsDelivered` up to the controller call: the id
      from the path and the caller as the one who marks. */
  function MarkAsDeliveredRequest(t: Auth.Token, idText: string): (r: Result<(Id, Option<Id>)>)
    ensures !t.isAuthenticated ==> r == Err(Unauthorized)
    ensures r.Ok? <==> t.isAuthenticated && ParseUuid(idText).Some?
    ensures r.Err? && t.isAuthenticated ==> r.code == BadInput
    ensures r.Ok? ==> Some(r.value.0) == ParseUuid(idText) && r.value.1 == Some(t.userId)
  {
    if !t.isAuthenticated then Err(Unauthorized)
    else match ParseUuid(idText)
      case None => Err(BadInput)
      case Some(id) => Ok((id, Some(t.userId)))
  }

  /** Confirming an attempt over HTTP. */
  function MarkAttemptAsDelivered(st: Store, t: Auth.Token, attemptText: string, now: Time): (r: Result<IntelDeliveryController.Outcome>)
    ensures r.Ok? ==> MarkAsDeliveredRequest(t, attemptText).Ok?
    ensures r.Ok? ==> var (id, marker) := MarkAsDeliveredRequest(t, attemptText).value;
      r == IntelDeliveryController.MarkIntelDeliveryAttemptAsDelivered(st, id, marker, now)
  {
    var (id, marker) :- MarkAsDeliveredRequest(t, attemptText);
    IntelDeliveryController.MarkIntelDeliveryAttemptAsDelivered(st, id, marker, now)
  }

  /** Confirming a delivery over HTTP. */
  function MarkDeliveryAsDelivered(st: Store, t: Auth.Token, deliveryText: string, now: Time): (r: Result<IntelDeliveryController.Outcome>)
    ensures r.Ok? ==> MarkAsDeliveredRequest(t, deliveryText).Ok?
    ensures r.Ok? ==> var (id, marker) := MarkAsDeliveredRequest(t, deliveryText).value;
      r == IntelDeliveryController.MarkIntelDeliveryAsDelivered(st, id, marker, now)
  {
    var (id, marker) :- MarkAsDeliveredRequest(t, deliveryText);
    IntelDeliveryController.MarkIntelDeliveryAsDelivered(st, id, marker, now)
  }

  /** Over HTTP nobody confirms anonymously: a confirmation that goes through
      was made by the caller, so the caller passed the controller's recipient
      check. */
  lemma HttpConfirmationIsByCaller(st: Store, t: Auth.Token, deliveryText: string, now: Time)
    requires MarkDeliveryAsDelivered(st, t, deliveryText, now).Ok?
    ensures var id := ParseUuid(deliveryText).value;
      id in st.deliveries && IntelDeliveryController.MayMarkDelivered(st, st.deliveries[id], Some(t.userId))
  {
  }

  /** `handleCreateIntelDeliveryAttemptForDelivery` up to the controller
      call: manage-intel-delivery and two ids. */
  function CreateAttemptRequest(t: Auth.Token, deliveryText: string, channelText: string): (r: Result<(Id, Id)>)
    ensures !t.isAuthenticated ==> r == Err(Unauthorized)
    ensures t.isAuthenticated && !Auth.HasPermission(t, {Auth.ManageIntelDelivery}) ==> r == Err(Forbidden)
    ensures r.Ok? <==> (&& Auth.HasPermission(t, {Auth.ManageIntelDelivery})
                        && ParseUuid(deliveryText).Some? && ParseUuid(channelText).Some?)
    ensures r.Err? && Auth.HasPermission(t, {Auth.ManageIntelDelivery}) ==> r.code == BadInput
    ensures r.Ok? ==> Some(r.value.0) == ParseUuid(deliveryText) && Some(r.value.1) == ParseUuid(channelText)
  {
    var _ :- Auth.AssurePermission(t, {Auth.ManageIntelDelivery});
    match (ParseUuid(deliveryText), ParseUuid(channelText))
    case (None, _) => Err(BadInput)
    case (_, None) => Err(BadInput)
    case (Some(d), Some(c)) => Ok((d, c))
  }

  /** The manual attempt end to end: the created attempt is answered in its
      public form, which never fails because a new attempt is open.
      `asWritten` selects the store's active-attempt query as written or
      corrected. */
  function CreateAttempt(st: Store, t: Auth.Token, deliveryText: string, channelText: string, now: Time, newId: Id, asWritten: bool): (r: Result<(PublicAttempt, IntelDeliveryController.Outcome)>)
    requires !HasAttempt(st.attempts, newId)
    ensures r.Ok? <==> (&& CreateAttemptRequest(t, deliveryText, channelText).Ok?
                        && var (d, c) := CreateAttemptRequest(t, deliveryText, channelText).value;
                           IntelDeliveryController.CreateIntelDeliveryAttempt(st, d, c, now, newId, asWritten).Ok?)
    ensures r.Ok? ==> r.value.0.status == StatusOpen && r.value.0.isActive
    ensures r.Ok? ==>
      var (d, c) := CreateAttemptRequest(t, deliveryText, channelText).value;
      var created := IntelDeliveryController.CreateIntelDeliveryAttempt(st, d, c, now, newId, asWritten);
      && created.Ok?
      && r.value.1 == created.value.1
      && Ok(r.value.0) == PublicAttemptFromStore(created.value.0)
  {
    var (d, c) :- CreateAttemptRequest(t, deliveryText, channelText);
    var (a, outcome) :- IntelDeliveryController.CreateIntelDeliveryAttempt(st, d, c, now, newId, asWritten);
    Ok((PublicAttemptFromStore(a).value, outcome))
  }

  /** `handleGetIntelDeliveryAttemptsByDelivery`: manage-intel-delivery, then
      the delivery's attempts, oldest first. */
  function AttemptsByDelivery(st: Store, t: Auth.Token, deliveryText: string): (r: Result<seq<PublicAttempt>>)
    ensures !t.isAuthenticated ==> r == Err(Unauthorized)
    ensures t.isAuthenticated && !Auth.HasPermission(t, {Auth.ManageIntelDelivery}) ==> r == Err(Forbidden)
    ensures r.Ok? ==> (&& ParseUuid(deliveryText).Some?
                       && r == PublicAttemptsFromStore(IntelDeliveryAttemptsByDelivery(st, ParseUuid(deliveryText).value)))
  {
    var _ :- Auth.AssurePermission(t, {Auth.ManageIntelDelivery});
    match ParseUuid(deliveryText)
    case None => Err(BadInput)
    case Some(d) => PublicAttemptsFromStore(IntelDeliveryAttemptsByDelivery(st, d))
  }

  /** `publicIntelDeliveryCancellation`. */
  datatype Cancellation = Cancellation(success: bool, note: Option<string>)

  /** `handleCancelIntelDeliveryByID` up to the controller call. The
      controller's cancellation is not part of this model. */
  function CancelDeliveryRequest(t: Auth.Token, deliveryText: string, body: Option<Cancellation>): (r: Result<(Id, Cancellation)>)
    ensures !t.isAuthenticated ==> r == Err(Unauthorized)
    ensures t.isAuthenticated && !Auth.HasPermission(t, {Auth.ManageIntelDelivery}) ==> r == Err(Forbidden)
    ensures r.Ok? <==> Auth.HasPermission(t, {Auth.ManageIntelDelivery}) && ParseUuid(deliveryText).Some? && body.Some?
    ensures r.Err? && Auth.HasPermission(t, {Auth.ManageIntelDelivery}) ==> r.code == BadInput
    ensures r.Ok? ==> Some(r.value.0) == ParseUuid(deliveryText) && r.value.1 == body.value
  {
    var _ :- Auth.AssurePermission(t, {Auth.ManageIntelDelivery});
    match ParseUuid(deliveryText)
    case None => Err(BadInput)
    case Some(d) => if body.None? then Err(BadInput) else Ok((d, body.value))
  }

  // ---------------------------------------------------------------------------
  // Attempt listing

  const QueryByOperation: string := "by_operation"
  const QueryByDelivery: string := "by_delivery"
  const QueryByChannel: string := "by_channel"
  const QueryByActive: string := "by_active"

  /** `intelDeliveryAttemptFiltersFromRequest`. */
  function AttemptFiltersFromRequest(q: Query): (r: Result<AttemptFilters>)
    ensures r.Err? ==> r.code == BadInput
    ensures r.Ok? <==>
      && (Get(q, QueryByOperation) == "" || ParseUuid(Get(q, QueryByOperation)).Some?)
      && (Get(q, QueryByDelivery) == "" || ParseUuid(Get(q, QueryByDelivery)).Some?)
      && (Get(q, QueryByChannel) == "" || ParseUuid(Get(q, QueryByChannel)).Some?)
      && (Get(q, QueryByActive) == "" || ParseBool(Get(q, QueryByActive)).Some?)
    ensures r.Ok? ==>
      && (r.value.byOperation.Some? <==> Get(q, QueryByOperation) != "")
      && (r.value.byOperation.Some? ==> r.value.byOperation == ParseUuid(Get(q, QueryByOperation)))
      && (r.value.byDelivery.Some? <==> Get(q, QueryByDelivery) != "")
      && (r.value.byDelivery.Some? ==> r.value.byDelivery == ParseUuid(Get(q, QueryByDelivery)))
      && (r.value.byChannel.Some? <==> Get(q, QueryByChannel) != "")
      && (r.value.byChannel.Some? ==> r.value.byChannel == ParseUuid(Get(q, QueryByChannel)))
      && (r.value.byActive.Some? <==> Get(q, QueryByActive) != "")
      && (r.value.byActive.Some? ==> r.value.byActive == ParseBool(Get(q, QueryByActive)))
  {
    var byOperation :- OptionalFilter(Get(q, QueryByOperation), ParseUuid);
    var byDelivery :- OptionalFilter(Get(q, QueryByDelivery), ParseUuid);
    var byChannel :- OptionalFilter(Get(q, QueryByChannel), ParseUuid);
    var byActive :- OptionalFilter(Get(q, QueryByActive), ParseBool);
    Ok(AttemptFilters(byOperation, byDelivery, byChannel, byActive))
  }

  /** A request without query parameters lists without filters. */
  lemma EmptyQueryHasNoAttemptFilters()
    ensures AttemptFiltersFromRequest(map[]) == Ok(NoAttemptFilters)
  {
  }

  /** Filters written as query parameters are read back. */
  lemma AttemptFiltersQueryRoundTrip(delivery: Id, active: bool)
    ensures AttemptFiltersFromRequest(map[QueryByDelivery := delivery, QueryByActive := FormatBool(active)])
      == Ok(NoAttemptFilters.(byDelivery := Some(delivery), byActive := Some(active)))
  {
    ParseUuidOfId(delivery);
    assert delivery != "";
    ParseFormatBool(active);
  }

  /** `handleGetIntelDeliveryAttempts` (pagination aside): the filters are
      parsed before the deliver-intel permission is checked, so a malformed
      query is bad input even for a caller without it. */
  function Attempts(st: Store, t: Auth.Token, q: Query): (r: Result<seq<PublicAttempt>>)
    ensures !t.isAuthenticated ==> r == Err(Unauthorized)
    ensures t.isAuthenticated && AttemptFiltersFromRequest(q).Err? ==> r == Err(BadInput)
    ensures t.isAuthenticated && AttemptFiltersFromRequest(q).Ok? && !Auth.HasPermission(t, {Auth.DeliverIntel}) ==>
      r == Err(Forbidden)
    ensures r.Ok? ==> (&& Auth.HasPermission(t, {Auth.DeliverIntel}) && AttemptFiltersFromRequest(q).Ok?
                       && r == PublicAttemptsFromStore(IntelDeliveryAttempts(st, AttemptFiltersFromRequest(q).value)))
  {
    if !t.isAuthenticated then Err(Unauthorized)
    else
      var filters :- AttemptFiltersFromRequest(q);
      var _ :- Auth.AssurePermission(t, {Auth.DeliverIntel});
      PublicAttemptsFromStore(IntelDeliveryAttempts(st, filters))
  }

  /** Every attempt answered matches the filters of the query. */
  lemma ListedAttemptsMatchQuery(st: Store, t: Auth.Token, q: Query, k: int)
    requires Attempts(st, t, q).Ok? && 0 <= k < |Attempts(st, t, q).value|
    ensures var p := Attempts(st, t, q).value[k];
      var f := AttemptFiltersFromRequest(q).value;
      && StoreAttemptFromPublic(p) in st.attempts
      && AttemptQualifies(st, f, StoreAttemptFromPublic(p))
  {
    var f := AttemptFiltersFromRequest(q).value;
    var listed := IntelDeliveryAttempts(st, f);
    assert Ok(Attempts(st, t, q).value[k]) == PublicAttemptFromStore(listed[k]);
    assert listed[k] in listed;
  }
}
