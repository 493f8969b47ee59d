/** The event consumer of the radio-delivery service
    (radio-delivery-svc/eventport/handlers.go): users, radio channels,
    delivery attempts and their statuses, and operation members. */
module RadioEventHandlers {
  import opened Common
  import opened Kafkautil
  import Events
  import opened ChannelMirror

  /** The service's copy of a user. */
  datatype User = User(id: Id, username: string, firstName: string, lastName: string, isActive: bool)

  /** `store.AcceptedIntelDeliveryAttempt`; `acceptedAt` is none while it
      holds Go's zero time, which the controller replaces. */
  datatype AcceptedAttempt = AcceptedAttempt(
    id: Id,
    intel: Id,
    intelOperation: Id,
    intelImportance: int,
    assignedTo: Id,
    assignedToLabel: string,
    assignedToUser: Option<Id>,
    delivery: Id,
    channel: Id,
    createdAt: Time,
    isActive: bool,
    statusTs: Time,
    note: Option<string>,
    acceptedAt: Option<Time>)

  /** `store.AcceptedIntelDeliveryAttemptStatus`. */
  datatype AttemptStatus = AttemptStatus(id: Id, isActive: bool, statusTs: Time, note: Option<string>)

  /** A call of the handler the port forwards to. */
  datatype Call =
    | CreateUser(user: User)
    | UpdateUser(user: User)
    | DeleteRadioChannelsByEntry(entryId: Id)
    | UpdateRadioChannelsByEntry(entryId: Id, channels: seq<MirroredChannel>)
    | CreateIntelDeliveryAttempt(attempt: AcceptedAttempt)
    | UpdateIntelDeliveryAttemptStatus(status: AttemptStatus)
    | UpdateOperationMembersByOperation(operationId: Id, members: seq<Id>)

  /** The topics and event types the port consumes. */
  predicate Consumed(topic: string, eventType: string) {
    || (topic == Events.AddressBookTopic
        && eventType in {Events.TypeAddressBookEntryDeleted, Events.TypeAddressBookEntryChannelsUpdated})
    || (topic == Events.IntelDeliveriesTopic
        && eventType in {Events.TypeIntelDeliveryAttemptCreated, Events.TypeIntelDeliveryAttemptStatusUpdated})
    || (topic == Events.UsersTopic
        && eventType in {Events.TypeUserCreated, Events.TypeUserUpdated})
    || (topic == Events.OperationsTopic && eventType == Events.TypeOperationMembersUpdated)
  }

  function UserOf(u: Events.UserInfo): (r: User)
    ensures r.id == u.id && r.username == u.username && r.firstName == u.firstName
    ensures r.lastName == u.lastName && r.isActive == u.isActive
  {
    User(u.id, u.username, u.firstName, u.lastName, u.isActive)
  }

  /** The accepted attempt an attempt event becomes: the recipient is the
      delivery's, the acceptance time is left to the controller. */
  function AcceptedAttemptOf(a: Events.AttemptCreatedInfo): (r: AcceptedAttempt)
    ensures r.id == a.id && r.intel == a.intel.id && r.intelOperation == a.intel.operation
    ensures r.intelImportance == a.intel.importance && r.assignedTo == a.delivery.to
    ensures r.assignedToLabel == a.assignedEntry.labelText && r.assignedToUser == a.assignedEntry.user
    ensures r.delivery == a.delivery.id && r.channel == a.channel && r.createdAt == a.createdAt
    ensures r.isActive == a.isActive && r.statusTs == a.statusTs && r.note == a.note
    ensures r.acceptedAt.None?
  {
    AcceptedAttempt(a.id, a.intel.id, a.intel.operation, a.intel.importance, a.delivery.to,
                    a.assignedEntry.labelText, a.assignedEntry.user, a.delivery.id, a.channel,
                    a.createdAt, a.isActive, a.statusTs, a.note, None)
  }

  /** The call a decoded event leads to; a channels update naming another
      entry for one of its radio channels is an internal error. */
  function CallOf(p: Events.Payload): Result<Option<Call>> {
    match p
    case UserCreated(u) => Ok(Some(CreateUser(UserOf(u))))
    case UserUpdated(u) => Ok(Some(UpdateUser(UserOf(u))))
    case AddressBookEntryDeleted(id) => Ok(Some(DeleteRadioChannelsByEntry(id)))
    case AddressBookEntryChannelsUpdated(entry, channels) =>
      var radio :- ChannelsOfType(entry, channels, Events.ChannelTypeRadio);
      Ok(Some(UpdateRadioChannelsByEntry(entry, radio)))
    case IntelDeliveryAttemptCreated(a) => Ok(Some(CreateIntelDeliveryAttempt(AcceptedAttemptOf(a))))
    case IntelDeliveryAttemptStatusUpdated(id, isActive, _, ts, note) =>
      Ok(Some(UpdateIntelDeliveryAttemptStatus(AttemptStatus(id, isActive, ts, note))))
    case OperationMembersUpdated(op, members) => Ok(Some(UpdateOperationMembersByOperation(op, members)))
    case _ => Ok(None)
  }

  /** `HandlerFn`: a consumed message whose value does not decode is an
      internal error and calls nothing; any other message is ignored. */
  function HandleMessage(m: Events.Message): (r: Result<Option<Call>>)
    ensures !Consumed(m.topic, m.eventType) ==> r == Ok(None)
    ensures Consumed(m.topic, m.eventType) && Events.DecodeFor(m).Err? ==> r == Err(Internal)
    ensures Consumed(m.topic, m.eventType) && Events.DecodeFor(m).Ok? ==> r == CallOf(Events.DecodeFor(m).value)
  {
    if !Consumed(m.topic, m.eventType) then Ok(None)
    else
      var p :- Events.DecodeFor(m);
      CallOf(p)
  }

  /** The message an event is consumed as. */
  function Inbound(topic: string, p: Events.Payload): (m: Events.Message)
    ensures m.topic == topic && m.eventType == Events.TypeOf(p) && m.rawValue == Encoded(p)
  {
    InboundMessage(topic, 0, 0, 0, 0, "", Events.TypeOf(p), Encoded(p), [])
  }

  /** A message on a topic the port does not read, or with a type the port
      does not know, calls nothing and is no error. */
  lemma UnknownEventsAreIgnored(m: Events.Message)
    requires m.topic !in {Events.AddressBookTopic, Events.IntelDeliveriesTopic, Events.UsersTopic, Events.OperationsTopic}
          || m.eventType == Events.TypeIntelDeliveryCreated
    ensures HandleMessage(m) == Ok(None)
  {
    Events.NamesAreDistinct();
  }

  /** A channels update keeps exactly the radio channels, in order, as
      (id, entry, label, timeout), and fails iff one of them names another
      entry. */
  lemma ChannelsUpdateKeepsRadioChannels(entry: Id, channels: seq<Events.ChannelInfo>)
    ensures var r := HandleMessage(Inbound(Events.AddressBookTopic, Events.AddressBookEntryChannelsUpdated(entry, channels)));
      && (r.Ok? <==> TypedChannelsBelongTo(entry, channels, Events.ChannelTypeRadio))
      && (r.Err? ==> r.code == Internal)
      && (r.Ok? ==> r.value == Some(UpdateRadioChannelsByEntry(entry,
            Map(MirrorOf, Filter((c: Events.ChannelInfo) => c.channelType == Events.ChannelTypeRadio, channels)))))
  {
  }

  /** A status update is copied field for field, whatever the status code. */
  lemma StatusUpdateIsCopied(id: Id, isActive: bool, status: string, ts: Time, note: Option<string>)
    ensures HandleMessage(Inbound(Events.IntelDeliveriesTopic, Events.IntelDeliveryAttemptStatusUpdated(id, isActive, status, ts, note)))
      == Ok(Some(UpdateIntelDeliveryAttemptStatus(AttemptStatus(id, isActive, ts, note))))
  {
  }

  /** An attempt event is accepted as such, assigned to the delivery's
      recipient. */
  lemma AttemptIsAccepted(a: Events.AttemptCreatedInfo)
    ensures var r := HandleMessage(Inbound(Events.IntelDeliveriesTopic, Events.IntelDeliveryAttemptCreated(a)));
      && r.Ok? && r.value.Some? && r.value.value.CreateIntelDeliveryAttempt?
      && r.value.value.attempt.assignedTo == a.delivery.to
      && r.value.value.attempt.acceptedAt.None?
  {
  }
}
