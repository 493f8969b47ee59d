/** The event consumer of the logistics service
    (logistics-svc/eventport/handlers.go): each message of a consumed topic
    and event type becomes one call of the logistics handler; every other
    message is ignored. */
module LogisticsEventHandlers {
  import opened Common
  import opened Kafkautil
  import Events
  import AddressBook
  import Groups
  import IntelDeliveries
  import IntelDeliveryController

  /** The logistics store's group record has the fields of the group
      service's one. */
  type Group = Groups.Group

  /** A call of the handler the port forwards to. */
  datatype Call =
    | CreateUser(user: AddressBook.User)
    | UpdateUser(user: AddressBook.User)
    | CreateGroup(group: Group)
    | UpdateGroup(group: Group)
    | DeleteGroupByID(groupId: Id)
    | CreateOperation(operation: AddressBook.Operation)
    | UpdateOperation(operation: AddressBook.Operation)
    | UpdateOperationMembersByOperation(operationId: Id, members: seq<Id>)
    | UpdateAttemptStatusForActive(attemptId: Id, status: string, note: Option<string>)
    | MarkAttemptAsDelivered(attemptId: Id, marker: Option<Id>)
    | MarkAttemptAsFailed(attemptId: Id, note: Option<string>)

  const NoteInAppPending: string := "in-app-notification pending"
  const NoteInAppSent: string := "in-app-notification sent"
  const NoteReadyForPickup: string := "delivery ready for pickup"
  const NotePickedUp: string := "delivery picked up"
  const NoteReleased: string := "delivery ready for pickup (released)"

  /** The topics and event types the port consumes. */
  predicate Consumed(topic: string, eventType: string) {
    || (topic == Events.GroupsTopic
        && eventType in {Events.TypeGroupCreated, Events.TypeGroupDeleted, Events.TypeGroupUpdated})
    || (topic == Events.UsersTopic
        && eventType in {Events.TypeUserCreated, Events.TypeUserUpdated})
    || (topic == Events.OperationsTopic
        && eventType in {Events.TypeOperationCreated, Events.TypeOperationUpdated, Events.TypeOperationMembersUpdated})
    || (topic == Events.InAppNotificationsTopic
        && eventType in {Events.TypeInAppNotificationForIntelPending, Events.TypeInAppNotificationForIntelSent})
    || (topic == Events.RadioDeliveriesTopic
        && eventType in {Events.TypeRadioDeliveryReadyForPickup, Events.TypeRadioDeliveryPickedUp,
                         Events.TypeRadioDeliveryReleased, Events.TypeRadioDeliveryFinished})
  }

  function UserOf(u: Events.UserInfo): (r: AddressBook.User)
    ensures r.id == u.id && r.username == u.username && r.firstName == u.firstName
    ensures r.lastName == u.lastName && r.isActive == u.isActive
  {
    AddressBook.User(u.id, u.username, u.firstName, u.lastName, u.isActive)
  }

  function GroupOf(g: Events.GroupInfo): (r: Group)
    ensures r.id == g.id && r.title == g.title && r.description == g.description
    ensures r.operation == g.operation && r.members == g.members
  {
    Groups.Group(g.id, g.title, g.description, g.operation, g.members)
  }

  function OperationOf(o: Events.OperationInfo): (r: AddressBook.Operation)
    ensures r.id == o.id && r.title == o.title && r.description == o.description
    ensures r.start == o.start && r.end == o.end && r.isArchived == o.isArchived
  {
    AddressBook.Operation(o.id, o.title, o.description, o.start, o.end, o.isArchived)
  }

  /** The call a decoded event leads to; none for the events the port does
      not consume. */
  function CallOf(p: Events.Payload): Option<Call> {
    match p
    case GroupCreated(g) => Some(CreateGroup(GroupOf(g)))
    case GroupUpdated(g) => Some(UpdateGroup(GroupOf(g)))
    case GroupDeleted(id) => Some(DeleteGroupByID(id))
    case UserCreated(u) => Some(CreateUser(UserOf(u)))
    case UserUpdated(u) => Some(UpdateUser(UserOf(u)))
    case OperationCreated(o) => Some(CreateOperation(OperationOf(o)))
    case OperationUpdated(o) => Some(UpdateOperation(OperationOf(o)))
    case OperationMembersUpdated(op, members) => Some(UpdateOperationMembersByOperation(op, members))
    case InAppNotificationForIntelPending(a) =>
      Some(UpdateAttemptStatusForActive(a, IntelDeliveries.StatusAwaitingDelivery, Some(NoteInAppPending)))
    case InAppNotificationForIntelSent(a) =>
      Some(UpdateAttemptStatusForActive(a, IntelDeliveries.StatusAwaitingAck, Some(NoteInAppSent)))
    case RadioDeliveryReadyForPickup(a) =>
      Some(UpdateAttemptStatusForActive(a, IntelDeliveries.StatusAwaitingDelivery, Some(NoteReadyForPickup)))
    case RadioDeliveryPickedUp(a) =>
      Some(UpdateAttemptStatusForActive(a, IntelDeliveries.StatusDelivering, Some(NotePickedUp)))
    case RadioDeliveryReleased(a) =>
      Some(UpdateAttemptStatusForActive(a, IntelDeliveries.StatusAwaitingDelivery, Some(NoteReleased)))
    case RadioDeliveryFinished(a, success, note) =>
      if success then Some(MarkAttemptAsDelivered(a, None)) else Some(MarkAttemptAsFailed(a, Some(note)))
    case _ => None
  }

  /** `HandlerFn`: a consumed message whose value does not decode is an
      internal error and calls nothing; any other message is ignored. */
  function HandleMessage(m: Events.Message): (r: Result<Option<Call>>)
    ensures !Consumed(m.topic, m.eventType) ==> r == Ok(None)
    ensures Consumed(m.topic, m.eventType) && Events.DecodeFor(m).Err? ==> r == Err(Internal)
    ensures Consumed(m.topic, m.eventType) && Events.DecodeFor(m).Ok? ==> r.Ok? && r.value.Some?
    ensures r.Ok? && r.value.Some? ==>
      m.rawValue.Encoded? && Events.TypeOf(m.rawValue.v) == m.eventType && r.value == CallOf(m.rawValue.v)
  {
    if !Consumed(m.topic, m.eventType) then Ok(None)
    else
      var p :- Events.DecodeFor(m);
      assert CallOf(p).Some?;
      Ok(CallOf(p))
  }

  /** A message on a consumed topic with a type the port does not know, or
      on any other topic, calls nothing and is no error. */
  lemma UnknownEventsAreIgnored(m: Events.Message)
    requires m.topic !in {Events.GroupsTopic, Events.UsersTopic, Events.OperationsTopic,
                          Events.InAppNotificationsTopic, Events.RadioDeliveriesTopic}
          || m.eventType == Events.TypeAddressBookEntryCreated
    ensures HandleMessage(m) == Ok(None)
  {
    Events.NamesAreDistinct();
  }

  /** The message an event is consumed as. */
  function Inbound(topic: string, p: Events.Payload): (m: Events.Message)
    ensures m.topic == topic && m.eventType == Events.TypeOf(p) && m.rawValue == Encoded(p)
  {
    InboundMessage(topic, 0, 0, 0, 0, "", Events.TypeOf(p), Encoded(p), [])
  }

  /** In-app notifications move the attempt to awaiting-delivery when
      pending and to awaiting-ack when sent. */
  lemma InAppNotificationStatuses(a: Id)
    ensures HandleMessage(Inbound(Events.InAppNotificationsTopic, Events.InAppNotificationForIntelPending(a)))
      == Ok(Some(UpdateAttemptStatusForActive(a, IntelDeliveries.StatusAwaitingDelivery, Some(NoteInAppPending))))
    ensures HandleMessage(Inbound(Events.InAppNotificationsTopic, Events.InAppNotificationForIntelSent(a)))
      == Ok(Some(UpdateAttemptStatusForActive(a, IntelDeliveries.StatusAwaitingAck, Some(NoteInAppSent))))
  {
  }

  /** Radio deliveries move the attempt to awaiting-delivery when ready or
      released and to delivering when picked up. */
  lemma RadioDeliveryStatuses(a: Id)
    ensures HandleMessage(Inbound(Events.RadioDeliveriesTopic, Events.RadioDeliveryReadyForPickup(a)))
      == Ok(Some(UpdateAttemptStatusForActive(a, IntelDeliveries.StatusAwaitingDelivery, Some(NoteReadyForPickup))))
    ensures HandleMessage(Inbound(Events.RadioDeliveriesTopic, Events.RadioDeliveryPickedUp(a)))
      == Ok(Some(UpdateAttemptStatusForActive(a, IntelDeliveries.StatusDelivering, Some(NotePickedUp))))
    ensures HandleMessage(Inbound(Events.RadioDeliveriesTopic, Events.RadioDeliveryReleased(a)))
      == Ok(Some(UpdateAttemptStatusForActive(a, IntelDeliveries.StatusAwaitingDelivery, Some(NoteReleased))))
  {
  }

  /** A finished radio delivery marks the attempt delivered, by nobody in
      particular, when it succeeded and failed with the event's note
      otherwise. */
  lemma RadioFinishOutcome(a: Id, success: bool, note: string)
    ensures var r := HandleMessage(Inbound(Events.RadioDeliveriesTopic, Events.RadioDeliveryFinished(a, success, note)));
      && (success ==> r == Ok(Some(MarkAttemptAsDelivered(a, None))))
      && (!success ==> r == Ok(Some(MarkAttemptAsFailed(a, Some(note)))))
  {
  }

  /** User, group and operation events are forwarded field for field; only
      the user's admin flag, which the logistics store does not keep, is
      dropped. */
  lemma RecordsAreCopied(u: Events.UserInfo, g: Events.GroupInfo, o: Events.OperationInfo)
    ensures HandleMessage(Inbound(Events.UsersTopic, Events.UserCreated(u)))
      == Ok(Some(CreateUser(AddressBook.User(u.id, u.username, u.firstName, u.lastName, u.isActive))))
    ensures HandleMessage(Inbound(Events.GroupsTopic, Events.GroupUpdated(g)))
      == Ok(Some(UpdateGroup(Groups.Group(g.id, g.title, g.description, g.operation, g.members))))
    ensures HandleMessage(Inbound(Events.OperationsTopic, Events.OperationCreated(o)))
      == Ok(Some(CreateOperation(AddressBook.Operation(o.id, o.title, o.description, o.start, o.end, o.isArchived))))
  {
  }

  /** An in-app notification sent for an active attempt that was not
      canceled leaves it active and awaiting acknowledgement once the delivery
      controller has handled the call. */
  lemma SentNotificationAwaitsAck(st: IntelDeliveries.Store, a: Id, now: Time, i: int)
    requires 0 <= i < |st.attempts| && st.attempts[i].id == a
    requires IntelDeliveries.IntelDeliveryAttemptByID(st, a) == Ok(st.attempts[i])
    requires st.attempts[i].isActive && st.attempts[i].status != IntelDeliveries.StatusCanceled
    ensures var c := HandleMessage(Inbound(Events.InAppNotificationsTopic, Events.InAppNotificationForIntelSent(a))).value.value;
      var r := IntelDeliveryController.UpdateIntelDeliveryAttemptStatusForActive(st, c.attemptId, c.status, c.note, now);
      r.Ok? ==> r.value.st.attempts[i].isActive && r.value.st.attempts[i].status == IntelDeliveries.StatusAwaitingAck
  {
  }
}
