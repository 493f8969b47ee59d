/** The event consumer of the open-intel-delivery notifier
    (open-intel-delivery-notifier-svc/eventport/handlers.go): user,
    operation and intel events are forwarded, delivery events are kept only
    while the delivery or attempt is active, and everything else is
    ignored. */
module OpenIntelEventHandlers {
  import opened Common
  import opened Kafkautil
  import Events
  import Operations
  import opened OpenIntelDeliveries

  /** The notifier's copy of a user. */
  datatype User = User(id: Id, username: string, firstName: string, lastName: string, isActive: bool)

  /** A call of the handler the port forwards to. */
  datatype Call =
    | CreateUser(user: User)
    | UpdateUser(user: User)
    | CreateOperation(operation: Operations.Operation)
    | UpdateOperation(operation: Operations.Operation)
    | UpdateOperationMembersByOperation(operationId: Id, members: seq<Id>)
    | CreateIntel(intel: Intel)
    | InvalidateIntelById(intelId: Id)
    | CreateActiveIntelDelivery(delivery: Delivery)
    | DeleteActiveIntelDeliveryById(deliveryId: Id)
    | CreateActiveIntelDeliveryAttempt(attempt: Attempt)
    | DeleteActiveIntelDeliveryAttemptById(attemptId: Id)
    | SetAutoIntelDeliveryEnabledForEntry(entryId: Id, enabled: bool)

  /** The topics and event types the port consumes. */
  predicate Consumed(topic: string, eventType: string) {
    || (topic == Events.OperationsTopic
        && eventType in {Events.TypeOperationCreated, Events.TypeOperationUpdated, Events.TypeOperationMembersUpdated})
    || (topic == Events.UsersTopic
        && eventType in {Events.TypeUserCreated, Events.TypeUserUpdated})
    || (topic == Events.IntelTopic
        && eventType in {Events.TypeIntelCreated, Events.TypeIntelInvalidated})
    || (topic == Events.IntelDeliveriesTopic
        && eventType in {Events.TypeIntelDeliveryCreated, Events.TypeIntelDeliveryAttemptCreated,
                         Events.TypeIntelDeliveryAttemptStatusUpdated, Events.TypeIntelDeliveryStatusUpdated,
                         Events.TypeAddressBookEntryAutoDeliveryUpdated})
  }

  function UserOf(u: Events.UserInfo): (r: User)
    ensures r.id == u.id && r.username == u.username && r.firstName == u.firstName
    ensures r.lastName == u.lastName && r.isActive == u.isActive
  {
    User(u.id, u.username, u.firstName, u.lastName, u.isActive)
  }

  function OperationOf(o: Events.OperationInfo): (r: Operations.Operation)
    ensures r.id == o.id && r.title == o.title && r.description == o.description
    ensures r.start == o.start && r.end == o.end && r.isArchived == o.isArchived
  {
    Operations.Operation(o.id, o.title, o.description, o.start, o.end, o.isArchived)
  }

  /** The notifier keeps the intel's metadata but not its content. */
  function IntelOf(i: Events.IntelInfo): (r: Intel)
    ensures r.id == i.id && r.createdAt == i.createdAt && r.createdBy == i.createdBy
    ensures r.operation == i.operation && r.importance == i.importance && r.isValid == i.isValid
  {
    Intel(i.id, i.createdAt, i.createdBy, i.operation, i.importance, i.isValid)
  }

  /** The call a decoded event leads to: none for inactive deliveries and
      attempts, for updates that leave them active, and for the events the
      port does not consume. */
  function CallOf(p: Events.Payload): Option<Call> {
    match p
    case UserCreated(u) => Some(CreateUser(UserOf(u)))
    case UserUpdated(u) => Some(UpdateUser(UserOf(u)))
    case OperationCreated(o) => Some(CreateOperation(OperationOf(o)))
    case OperationUpdated(o) => Some(UpdateOperation(OperationOf(o)))
    case OperationMembersUpdated(op, members) => Some(UpdateOperationMembersByOperation(op, members))
    case IntelCreated(i) => Some(CreateIntel(IntelOf(i)))
    case IntelInvalidated(id, _) => Some(InvalidateIntelById(id))
    case IntelDeliveryCreated(d) =>
      if d.isActive then Some(CreateActiveIntelDelivery(Delivery(d.id, d.intel, d.to, d.note))) else None
    case IntelDeliveryAttemptCreated(a) =>
      if a.isActive then Some(CreateActiveIntelDeliveryAttempt(Attempt(a.id, a.delivery.id))) else None
    case IntelDeliveryAttemptStatusUpdated(id, isActive, _, _, _) =>
      if isActive then None else Some(DeleteActiveIntelDeliveryAttemptById(id))
    case IntelDeliveryStatusUpdated(id, isActive, _, _) =>
      if isActive then None else Some(DeleteActiveIntelDeliveryById(id))
    case AddressBookEntryAutoDeliveryUpdated(id, enabled) => Some(SetAutoIntelDeliveryEnabledForEntry(id, enabled))
    case _ => None
  }

  /** `HandlerFn`: a consumed message whose value does not decode is an
      internal error and calls nothing; any other message is ignored. */
  function HandleMessage(m: Events.Message): (r: Result<Option<Call>>)
    ensures !Consumed(m.topic, m.eventType) ==> r == Ok(None)
    ensures Consumed(m.topic, m.eventType) && Events.DecodeFor(m).Err? ==> r == Err(Internal)
    ensures Consumed(m.topic, m.eventType) ==> (r.Ok? <==> Events.DecodeFor(m).Ok?)
    ensures r.Ok? && r.value.Some? ==>
      m.rawValue.Encoded? && Events.TypeOf(m.rawValue.v) == m.eventType && r.value == CallOf(m.rawValue.v)
  {
    if !Consumed(m.topic, m.eventType) then Ok(None)
    else
      var p :- Events.DecodeFor(m);
      Ok(CallOf(p))
  }

  /** The message an event is consumed as. */
  function Inbound(topic: string, p: Events.Payload): (m: Events.Message)
    ensures m.topic == topic && m.eventType == Events.TypeOf(p) && m.rawValue == Encoded(p)
  {
    InboundMessage(topic, 0, 0, 0, 0, "", Events.TypeOf(p), Encoded(p), [])
  }

  /** A message on a topic the port does not read, or with a type the port
      does not know, calls nothing and is no error. */
  lemma UnknownEventsAreIgnored(m: Events.Message)
    requires m.topic !in {Events.OperationsTopic, Events.UsersTopic, Events.IntelTopic, Events.IntelDeliveriesTopic}
          || m.eventType == Events.TypeAddressBookEntryCreated
    ensures HandleMessage(m) == Ok(None)
  {
    Events.NamesAreDistinct();
  }

  /** A created delivery is stored exactly when it is active. */
  lemma CreatedDeliveryKeptIffActive(d: Events.DeliveryInfo)
    ensures var r := HandleMessage(Inbound(Events.IntelDeliveriesTopic, Events.IntelDeliveryCreated(d)));
      && r.Ok?
      && (r.value.Some? <==> d.isActive)
      && (d.isActive ==> r.value.value == CreateActiveIntelDelivery(Delivery(d.id, d.intel, d.to, d.note)))
  {
  }

  /** A created attempt is stored exactly when it is active, as the pair of
      its id and its delivery's id. */
  lemma CreatedAttemptKeptIffActive(a: Events.AttemptCreatedInfo)
    ensures var r := HandleMessage(Inbound(Events.IntelDeliveriesTopic, Events.IntelDeliveryAttemptCreated(a)));
      && r.Ok?
      && (r.value.Some? <==> a.isActive)
      && (a.isActive ==> r.value.value == CreateActiveIntelDeliveryAttempt(Attempt(a.id, a.delivery.id)))
  {
  }

  /** A status update removes the attempt or delivery exactly when it is no
      longer active. */
  lemma StatusUpdatesDeleteIffInactive(id: Id, isActive: bool, status: string, ts: Time, success: bool, note: Option<string>)
    ensures var r := HandleMessage(Inbound(Events.IntelDeliveriesTopic,
                                           Events.IntelDeliveryAttemptStatusUpdated(id, isActive, status, ts, note)));
      r == (if isActive then Ok(None) else Ok(Some(DeleteActiveIntelDeliveryAttemptById(id))))
    ensures var r := HandleMessage(Inbound(Events.IntelDeliveriesTopic,
                                           Events.IntelDeliveryStatusUpdated(id, isActive, success, note)));
      r == (if isActive then Ok(None) else Ok(Some(DeleteActiveIntelDeliveryById(id))))
  {
  }

  /** A consumed message whose value is not the record its type names
      calls nothing and is an internal error. */
  lemma MalformedPayloadIsInternal(m: Events.Message)
    requires Consumed(m.topic, m.eventType)
    requires !m.rawValue.Encoded?
    ensures HandleMessage(m) == Err(Internal)
  {
  }

  /** When the only active attempt of a delivery ends, the
      delivery is open for manual delivery again. */
  lemma EndedAttemptReopensDelivery(st: Store, operation: Id, a: Attempt, d: Delivery)
    requires a in st.attempts && a.delivery == d.id
    requires forall x :: x in st.attempts && x.delivery == d.id ==> x.id == a.id
    requires d in st.deliveries && d.intel in st.intel && st.intel[d.intel].operation == operation && d.to !in st.auto
    ensures HandleMessage(Inbound(Events.IntelDeliveriesTopic,
                                  Events.IntelDeliveryAttemptStatusUpdated(a.id, false, Events.StatusDelivered, 0, None)))
      == Ok(Some(DeleteActiveIntelDeliveryAttemptById(a.id)))
    ensures OpenIntelDeliveries.DeleteActiveIntelDeliveryAttemptById(st, a.id).Ok?
    ensures Summary(d, st.intel[d.intel])
      in OpenIntelDeliveriesByOperation(OpenIntelDeliveries.DeleteActiveIntelDeliveryAttemptById(st, a.id).value, operation)
  {
    var i :| 0 <= i < |st.attempts| && st.attempts[i] == a;
    var st' := OpenIntelDeliveries.DeleteActiveIntelDeliveryAttemptById(st, a.id).value;
    assert !HasActiveAttempt(st', d.id) by {
      forall k | 0 <= k < |st'.attempts| ensures st'.attempts[k].delivery != d.id {
        assert st'.attempts[k] in st.attempts;
      }
    }
  }
}
